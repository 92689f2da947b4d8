/** CreateNewAuctionCommands: the delivery days that lack an auction are merged, in one greedy pass,
    into half-open periods of gas calendar days, and one command is made for every operator and period.
    Days are integers and the increment is one day; a delivery day d is the calendar day d - 1. */
module AuctionPeriods {
  import opened Options

  /** TimePeriod with its two bounds updated in place; Until is None for UtcTime.Null. */
  class TimePeriod {
    var From: int
    var Until: Option<int>

    constructor (from: int, until: Option<int>)
      ensures From == from && Until == until
    {
      From, Until := from, until;
    }

    method SetUntil(value: int)
      modifies this`Until
      ensures Until == Some(value)
    {
      Until := Some(value);
    }
  }

  datatype Period = Period(from: int, until: Option<int>)

  /** A finished period: the calendar days from (inclusive) to until (exclusive), that is the delivery
      days from + 1 to until. */
  datatype Span = Span(from: int, until: int) {
    predicate Covers(day: int) {
      from < day <= until
    }

    function First(): int {
      from + 1
    }
  }

  /** The delivery days in [start, end) for which an auction is requested. */
  function Needed(start: int, end: int, defined: set<int>, force: bool): set<int> {
    set day | start <= day < end && (force || day !in defined)
  }

  /** A period that is still open counts as its first day. */
  function Close(p: Period): Span {
    Span(p.from, if p.until.Some? then p.until.value else p.from + 1)
  }

  /** The first and the last day of a span are needed, and behind its second needed day every day is. */
  ghost predicate Tight(s: Span, needed: set<int>) {
    && s.First() in needed && s.until in needed && s.First() <= s.until
    && (forall e, d :: s.First() < e < d <= s.until && e in needed ==> d in needed)
  }

  ghost predicate Covered(spans: seq<Span>, day: int) {
    exists i :: 0 <= i < |spans| && spans[i].Covers(day)
  }

  /** The merge of the needed days: */
  ghost predicate IsMerge(spans: seq<Span>, needed: set<int>) {
    // every needed day is covered,
    && (forall day {:trigger Covered(spans, day)} :: day in needed ==> Covered(spans, day))
    // every span is tight, and only the last may consist of a single day,
    && (forall i :: 0 <= i < |spans| ==> Tight(spans[i], needed))
    && (forall i :: 0 <= i < |spans| - 1 ==> spans[i].First() < spans[i].until)
    // and the spans ascend with at least one calendar day between them.
    && (forall i, j :: 0 <= i < j < |spans| ==> spans[i].until + 1 <= spans[j].from)
  }

  function CloseAll(ps: seq<Period>): (spans: seq<Span>)
    ensures |spans| == |ps| && forall i :: 0 <= i < |ps| ==> spans[i] == Close(ps[i])
  {
    seq(|ps|, i requires 0 <= i < |ps| => Close(ps[i]))
  }

  /** The state of the loop: the merge of the days seen so far, a period open exactly when it holds a
      single day, and the last one ending at the last needed day. */
  ghost predicate IsPartialMerge(ps: seq<Period>, needed: set<int>) {
    && IsMerge(CloseAll(ps), needed)
    && (forall i :: 0 <= i < |ps| ==> (ps[i].until.Some? <==> Close(ps[i]).First() < Close(ps[i]).until))
    && (ps != [] ==> forall day :: day in needed ==> day <= Close(ps[|ps| - 1]).until)
  }

  /** One turn of the day loop on a needed day. */
  function Step(ps: seq<Period>, date: int): seq<Period> {
    if ps == [] || (ps[|ps| - 1].until.Some? && date - ps[|ps| - 1].until.value > 1) then
      ps + [Period(date - 1, None)]
    else
      ps[|ps| - 1 := ps[|ps| - 1].(until := Some(date))]
  }

  lemma TightStays(s: Span, needed: set<int>, date: int)
    requires Tight(s, needed) && s.until < date
    ensures Tight(s, needed + {date})
  {
  }

  /** A span that ends at the last needed day, extended to the next needed day: the days between are
      free of needed days, and it either was a single day or grows by the very next day. */
  lemma TightGrows(s: Span, needed: set<int>, date: int)
    requires Tight(s, needed) && s.until < date && (s.First() == s.until || date == s.until + 1)
    requires forall day :: day in needed ==> day <= s.until
    ensures Tight(s.(until := date), needed + {date})
  {
  }

  /** The spans of the state after a turn. */
  lemma StepSpans(ps: seq<Period>, needed: set<int>, date: int)
    requires IsPartialMerge(ps, needed) && forall day :: day in needed ==> day < date
    ensures var spans, n := CloseAll(ps), |Step(ps, date)| - 1;
            && CloseAll(Step(ps, date)) ==
               (if n == |ps| then spans + [Span(date - 1, date)] else spans[n := spans[n].(until := date)])
            && (n < |ps| ==>
                  spans[n].until < date && (spans[n].First() == spans[n].until || date == spans[n].until + 1))
            && (n == |ps| > 0 ==> spans[n - 1].First() < spans[n - 1].until && spans[n - 1].until + 1 < date)
            && |ps| - 1 <= n <= |ps| && 0 <= n
            && (forall i :: 0 <= i < n ==> Step(ps, date)[i] == ps[i])
            && (Step(ps, date)[n].until.Some? <==> n < |ps|)
  {
    if ps != [] {
      var spans := CloseAll(ps);
      assert Tight(spans[|ps| - 1], needed);
      assert spans[|ps| - 1].until in needed;
    }
  }

  lemma StepKeepsTight(ps: seq<Period>, needed: set<int>, date: int)
    requires IsPartialMerge(ps, needed) && forall day :: day in needed ==> day < date
    ensures forall i :: 0 <= i < |Step(ps, date)| ==> Tight(CloseAll(Step(ps, date))[i], needed + {date})
  {
    var spans, spans', n := CloseAll(ps), CloseAll(Step(ps, date)), |Step(ps, date)| - 1;
    StepSpans(ps, needed, date);
    hide Step, CloseAll, Tight;
    forall i | 0 <= i < |spans'| ensures Tight(spans'[i], needed + {date}) {
      if i < n {
        TightEnds(spans[i], needed);
        TightStays(spans[i], needed, date);
      } else if n < |ps| {
        TightGrows(spans[n], needed, date);
      } else {
        SingleDay(date, needed + {date});
      }
    }
  }

  lemma StepKeepsCovering(ps: seq<Period>, needed: set<int>, date: int)
    requires IsPartialMerge(ps, needed) && forall day :: day in needed ==> day < date
    ensures forall day :: day in needed + {date} ==> Covered(CloseAll(Step(ps, date)), day)
  {
    var spans, spans', n := CloseAll(ps), CloseAll(Step(ps, date)), |Step(ps, date)| - 1;
    StepSpans(ps, needed, date);
    hide Step, CloseAll, Tight;
    forall day | day in needed + {date} ensures Covered(spans', day) {
      if day == date {
        assert spans'[n].Covers(day) by {
          if n < |ps| {
            TightEnds(spans[n], needed);
          }
        }
      } else {
        assert Covered(spans, day);
        var i :| 0 <= i < |spans| && spans[i].Covers(day);
        assert spans'[i].Covers(day);
      }
    }
  }

  /** One turn of the loop merges one more day. */
  lemma StepMerges(ps: seq<Period>, needed: set<int>, date: int)
    requires IsPartialMerge(ps, needed) && forall day :: day in needed ==> day < date
    ensures IsPartialMerge(Step(ps, date), needed + {date})
  {
    hide *;
    StepKeepsTight(ps, needed, date);
    StepKeepsCovering(ps, needed, date);
    StepKeepsOrder(ps, needed, date);
    FromParts(Step(ps, date), needed + {date});
  }

  lemma FromParts(ps: seq<Period>, needed: set<int>)
    requires forall day {:trigger Covered(CloseAll(ps), day)} :: day in needed ==> Covered(CloseAll(ps), day)
    requires forall i :: 0 <= i < |ps| ==> Tight(CloseAll(ps)[i], needed)
    requires forall i :: 0 <= i < |ps| - 1 ==> CloseAll(ps)[i].First() < CloseAll(ps)[i].until
    requires forall i, j :: 0 <= i < j < |ps| ==> CloseAll(ps)[i].until + 1 <= CloseAll(ps)[j].from
    requires forall i :: 0 <= i < |ps| ==> (ps[i].until.Some? <==> CloseAll(ps)[i].First() < CloseAll(ps)[i].until)
    requires ps != [] && forall day :: day in needed ==> day <= CloseAll(ps)[|ps| - 1].until
    ensures IsPartialMerge(ps, needed)
  {
    hide Tight, Covered, Close;
  }

  lemma StepKeepsOrder(ps: seq<Period>, needed: set<int>, date: int)
    requires IsPartialMerge(ps, needed) && forall day :: day in needed ==> day < date
    ensures var spans := CloseAll(Step(ps, date));
            && (forall i :: 0 <= i < |spans| - 1 ==> spans[i].First() < spans[i].until)
            && (forall i, j :: 0 <= i < j < |spans| ==> spans[i].until + 1 <= spans[j].from)
            && (forall i :: 0 <= i < |spans| ==> (Step(ps, date)[i].until.Some? <==> spans[i].First() < spans[i].until))
            && |spans| == |Step(ps, date)| > 0 && spans[|spans| - 1].until == date
  {
    StepSpans(ps, needed, date);
    var spans, n := CloseAll(ps), |Step(ps, date)| - 1;
    hide Step, CloseAll, Tight, Covered, Close;
    if ps != [] {
      var last := spans[|ps| - 1];
      forall i | 0 <= i < |ps| ensures spans[i].until <= last.until {
        TightEnds(last, needed);
      }
    }
  }

  lemma TightEnds(s: Span, needed: set<int>)
    requires Tight(s, needed)
    ensures s.First() in needed && s.until in needed && s.First() <= s.until
  {
  }

  lemma SingleDay(date: int, needed: set<int>)
    requires date in needed
    ensures Tight(Span(date - 1, date), needed)
  {
  }

  /** The values of the period objects. */
  ghost predicate Holds(periods: seq<TimePeriod>, ps: seq<Period>)
    reads periods
  {
    |periods| == |ps| && forall i :: 0 <= i < |ps| ==> ps[i] == Period(periods[i].From, periods[i].Until)
  }

  ghost predicate Distinct(periods: seq<TimePeriod>) {
    forall i, j :: 0 <= i < j < |periods| ==> periods[i] != periods[j]
  }

  /** Adds a needed day to the list of periods. */
  method AddDay(periods: seq<TimePeriod>, date: int, ghost ps: seq<Period>) returns (periods': seq<TimePeriod>)
    requires Holds(periods, ps) && Distinct(periods)
    modifies if periods == [] then {} else {periods[|periods| - 1]}
    ensures Holds(periods', Step(ps, date)) && Distinct(periods')
    ensures forall p :: p in periods' ==> p in periods || fresh(p)
  {
    periods' := periods;
    if |periods| == 0 || (periods[|periods| - 1].Until.Some? && date - periods[|periods| - 1].Until.value > 1) {
      var p := new TimePeriod(date - 1, None);
      periods' := periods + [p];
    } else {
      periods[|periods| - 1].SetUntil(date);
    }
  }

  function ClosedPeriod(s: Span): Period {
    Period(s.from, Some(s.until))
  }

  function Closed(spans: seq<Span>): (ps: seq<Period>)
    ensures |ps| == |spans| && forall i :: 0 <= i < |spans| ==> ps[i] == ClosedPeriod(spans[i])
  {
    seq(|spans|, i requires 0 <= i < |spans| => ClosedPeriod(spans[i]))
  }

  /** Gives the last period an end if it has none. */
  method CloseLast(periods: seq<TimePeriod>, ghost ps: seq<Period>)
    requires Holds(periods, ps) && Distinct(periods)
    requires forall i :: 0 <= i < |ps| - 1 ==> ps[i].until.Some?
    modifies if periods == [] then {} else {periods[|periods| - 1]}
    ensures Holds(periods, Closed(CloseAll(ps)))
  {
    if |periods| > 0 && periods[|periods| - 1].Until.None? {
      periods[|periods| - 1].SetUntil(periods[|periods| - 1].From + 1);
    }
  }

  lemma NeededNext(start: int, date: int, defined: set<int>, force: bool)
    requires start <= date
    ensures var needed := Needed(start, date, defined, force);
            Needed(start, date + 1, defined, force) == if date in defined && !force then needed else needed + {date}
  {
  }

  /** The day loop and the closing of the last period: the result is the merge of the needed days. */
  method MergePeriods(start: int, end: int, defined: set<int>, force: bool)
    returns (periods: seq<TimePeriod>, ghost spans: seq<Span>)
    ensures Distinct(periods) && fresh(set p | p in periods)
    ensures Holds(periods, Closed(spans))
    ensures IsMerge(spans, Needed(start, end, defined, force))
  {
    hide IsMerge, Step, Distinct, Closed, Tight;
    periods := [];
    ghost var ps: seq<Period> := [];
    var date := start;
    EmptyMerge(start, defined, force);
    while date < end
      invariant start <= date && (date <= end || date == start)
      invariant Distinct(periods) && Holds(periods, ps) && fresh(set p | p in periods)
      invariant IsPartialMerge(ps, Needed(start, date, defined, force))
    {
      hide IsPartialMerge, Holds;
      NeededNext(start, date, defined, force);
      if !(date in defined && !force) {
        StepMerges(ps, Needed(start, date, defined, force), date);
        periods := AddDay(periods, date, ps);
        ps := Step(ps, date);
      }
      date := date + 1;
    }
    spans := CloseAll(ps);
    if end <= start {
      NothingNeeded(start, end, defined, force);
      NothingNeeded(start, start, defined, force);
    }
    OnlyLastOpen(ps, Needed(start, date, defined, force));
    CloseLast(periods, ps);
  }

  lemma NothingNeeded(start: int, end: int, defined: set<int>, force: bool)
    requires end <= start
    ensures Needed(start, end, defined, force) == {}
  {
  }

  lemma EmptyMerge(start: int, defined: set<int>, force: bool)
    ensures Needed(start, start, defined, force) == {}
    ensures IsPartialMerge([], {}) && Distinct([]) && Holds([], [])
  {
  }

  lemma OnlyLastOpen(ps: seq<Period>, needed: set<int>)
    requires IsPartialMerge(ps, needed)
    ensures forall i :: 0 <= i < |ps| - 1 ==> ps[i].until.Some?
    ensures IsMerge(CloseAll(ps), needed)
  {
    forall i | 0 <= i < |ps| - 1 ensures ps[i].until.Some? {
      assert CloseAll(ps)[i].First() < CloseAll(ps)[i].until;
    }
  }

  /** The first day of a merge is the first needed day. */
  lemma FirstSpan(spans: seq<Span>, needed: set<int>, day: int)
    requires IsMerge(spans, needed) && day in needed
    ensures spans != [] && spans[0].First() in needed && spans[0].First() <= day
  {
    assert Covered(spans, day);
    var i :| 0 <= i < |spans| && spans[i].Covers(day);
    assert Tight(spans[0], needed) && Tight(spans[i], needed);
  }

  lemma CoveringSpan(spans: seq<Span>, needed: set<int>, day: int) returns (i: nat)
    requires IsMerge(spans, needed) && day in needed
    ensures i < |spans| && spans[i].Covers(day)
  {
    assert Covered(spans, day);
    i :| 0 <= i < |spans| && spans[i].Covers(day);
  }

  /** The end of the first span is determined by the needed days. */
  lemma FirstEnd(a: seq<Span>, b: seq<Span>, needed: set<int>)
    requires IsMerge(a, needed) && IsMerge(b, needed) && a != [] && b != [] && a[0].from == b[0].from
    ensures b[0].until <= a[0].until
  {
    assert Tight(a[0], needed) && Tight(b[0], needed);
    if a[0].until < b[0].until {
      // a[0] is not the last span, so it ends at a needed day behind its first one; b[0] makes the
      // next day needed as well, and a does not cover it.
      var i := CoveringSpan(a, needed, b[0].until);
      assert a[0].First() < a[0].until;
      var k := CoveringSpan(a, needed, a[0].until + 1);
    }
  }

  lemma RestIsTight(spans: seq<Span>, needed: set<int>, i: nat)
    requires IsMerge(spans, needed) && 0 < i < |spans|
    ensures Tight(spans[i], set day | day in needed && day > spans[0].until)
  {
    assert Tight(spans[i], needed);
  }

  lemma RestCovers(spans: seq<Span>, needed: set<int>, day: int)
    requires IsMerge(spans, needed) && spans != [] && day in needed && day > spans[0].until
    ensures Covered(spans[1..], day)
  {
    hide Tight;
    var i := CoveringSpan(spans, needed, day);
    assert spans[1..][i - 1].Covers(day);
  }

  lemma RestIsMerge(spans: seq<Span>, needed: set<int>)
    requires IsMerge(spans, needed) && spans != []
    ensures IsMerge(spans[1..], set day | day in needed && day > spans[0].until)
  {
    var rest, needed' := spans[1..], set day | day in needed && day > spans[0].until;
    forall i | 0 <= i < |rest| ensures Tight(rest[i], needed') {
      RestIsTight(spans, needed, i + 1);
    }
    forall day | day in needed' ensures Covered(rest, day) {
      RestCovers(spans, needed, day);
    }
    hide Tight, Covered;
  }

  /** The conditions of a merge determine it. */
  lemma {:induction false} MergeIsUnique(a: seq<Span>, b: seq<Span>, needed: set<int>)
    requires IsMerge(a, needed) && IsMerge(b, needed)
    ensures a == b
    decreases |a|
  {
    hide IsMerge, Tight;
    if a != [] {
      FirstDay(a, needed);
      FirstSpan(b, needed, a[0].First());
    }
    if b != [] {
      FirstDay(b, needed);
      FirstSpan(a, needed, b[0].First());
      FirstEnd(a, b, needed);
      FirstEnd(b, a, needed);
      RestIsMerge(a, needed);
      RestIsMerge(b, needed);
      MergeIsUnique(a[1..], b[1..], set day | day in needed && day > a[0].until);
      assert a == [a[0]] + a[1..] && b == [b[0]] + b[1..];
    }
  }

  lemma FirstDay(spans: seq<Span>, needed: set<int>)
    requires IsMerge(spans, needed) && spans != []
    ensures spans[0].First() in needed
  {
    assert Tight(spans[0], needed);
  }

  /** With force there is one period that spans the whole interval. */
  lemma ForceIsOnePeriod(start: int, end: int, defined: set<int>, spans: seq<Span>)
    requires start < end && IsMerge(spans, Needed(start, end, defined, true))
    ensures spans == [Span(start - 1, end - 1)]
  {
    var needed, one := Needed(start, end, defined, true), [Span(start - 1, end - 1)];
    assert forall day :: day in needed ==> one[0].Covers(day);
    assert IsMerge(one, needed) by {
      forall day | day in needed ensures Covered(one, day) {
        assert one[0].Covers(day);
      }
    }
    MergeIsUnique(spans, one, needed);
  }

  /** A needed day that has a needed neighbour, or is the last needed day. */
  ghost predicate NotIsolated(day: int, needed: set<int>) {
    day - 1 in needed || day + 1 in needed || forall other :: other in needed ==> other <= day
  }

  /** What is requested beyond the needed days: a covered day that is not needed lies strictly between
      the first and the second needed day of its span. */
  lemma SurplusDays(spans: seq<Span>, needed: set<int>, i: nat, day: int)
    requires IsMerge(spans, needed) && i < |spans| && spans[i].Covers(day) && day !in needed
    ensures spans[i].First() < day < spans[i].until
    ensures forall e :: spans[i].First() < e <= day ==> e !in needed
  {
    assert Tight(spans[i], needed);
  }

  lemma NoSurplusMeansNotIsolated(spans: seq<Span>, needed: set<int>, day: int)
    requires IsMerge(spans, needed) && day in needed
    requires forall d :: Covered(spans, d) ==> d in needed
    ensures NotIsolated(day, needed)
  {
    assert Covered(spans, day);
    var i :| 0 <= i < |spans| && spans[i].Covers(day);
    assert Tight(spans[i], needed);
    if day - 1 !in needed && day + 1 !in needed {
      // The span ends at day and starts at it, so it is the last one.
      if day > spans[i].First() {
        assert spans[i].Covers(day - 1);
      }
      forall other | other in needed ensures other <= day {
        assert Covered(spans, other);
        var k :| 0 <= k < |spans| && spans[k].Covers(other);
      }
    }
  }

  lemma NotIsolatedMeansNoSurplus(spans: seq<Span>, needed: set<int>, i: nat, day: int)
    requires IsMerge(spans, needed) && i < |spans| && spans[i].Covers(day)
    requires forall d :: d in needed ==> NotIsolated(d, needed)
    ensures day in needed
  {
    var first := spans[i].First();
    assert Tight(spans[i], needed);
    if day !in needed {
      SurplusDays(spans, needed, i, day);
      assert NotIsolated(first, needed);
      var k := CoveringSpan(spans, needed, first - 1);
    }
  }

  /** The request is meant for days without an auction only. It covers no other day exactly when every
      needed day but the last one has a needed neighbour. */
  lemma OnlyNeededDaysIff(spans: seq<Span>, needed: set<int>)
    requires IsMerge(spans, needed)
    ensures (forall day :: Covered(spans, day) ==> day in needed) <==>
        (forall day :: day in needed ==> NotIsolated(day, needed))
  {
    if forall day :: Covered(spans, day) ==> day in needed {
      forall day | day in needed ensures NotIsolated(day, needed) {
        NoSurplusMeansNotIsolated(spans, needed, day);
      }
    }
    if forall day :: day in needed ==> NotIsolated(day, needed) {
      forall day | Covered(spans, day) ensures day in needed {
        var i :| 0 <= i < |spans| && spans[i].Covers(day);
        NotIsolatedMeansNoSurplus(spans, needed, i, day);
      }
    }
  }

  /** An input on which defined days are requested: days 1 and 5 lack an auction, 2 to 4 have one. */
  lemma DefinedDaysCanBeRequested()
    ensures IsMerge([Span(0, 5)], Needed(1, 8, {2, 3, 4, 6, 7}, false))
    ensures Covered([Span(0, 5)], 3) && 3 !in Needed(1, 8, {2, 3, 4, 6, 7}, false)
  {
    var needed, spans := Needed(1, 8, {2, 3, 4, 6, 7}, false), [Span(0, 5)];
    assert needed == {1, 5};
    assert spans[0].Covers(1) && spans[0].Covers(3) && spans[0].Covers(5);
    assert Covered(spans, 1) && Covered(spans, 5);
  }

  /** A request for one operator and one period; the routing parameters are those of the receiver. */
  datatype Command = Command(
    senderKey: int, receiverKey: int, routingAddress: string, priority: string, fromDate: int, toDate: int)

  function Request(oper: int, receiver: int, address: string, priority: string, s: Span): Command {
    Command(oper, receiver, address, priority, s.from, s.until)
  }

  /** The commands of one operator. */
  function Requests(oper: int, receiver: int, address: string, priority: string, spans: seq<Span>): seq<Command> {
    if spans == [] then []
    else Requests(oper, receiver, address, priority, spans[..|spans| - 1])
         + [Request(oper, receiver, address, priority, spans[|spans| - 1])]
  }

  /** One command per operator and period, operators in the outer loop. */
  function AllRequests(
    operators: seq<int>, receiver: int, address: string, priority: string, spans: seq<Span>): seq<Command> {
    if operators == [] then []
    else AllRequests(operators[..|operators| - 1], receiver, address, priority, spans)
         + Requests(operators[|operators| - 1], receiver, address, priority, spans)
  }

  lemma {:induction false} RequestsAt(oper: int, receiver: int, address: string, priority: string, spans: seq<Span>)
    ensures |Requests(oper, receiver, address, priority, spans)| == |spans|
    ensures forall p :: 0 <= p < |spans| ==>
      Requests(oper, receiver, address, priority, spans)[p] == Request(oper, receiver, address, priority, spans[p])
  {
    if spans != [] {
      RequestsAt(oper, receiver, address, priority, spans[..|spans| - 1]);
    }
  }

  lemma {:induction false} RequestCount(
    operators: seq<int>, receiver: int, address: string, priority: string, spans: seq<Span>)
    ensures |AllRequests(operators, receiver, address, priority, spans)| == |operators| * |spans|
  {
    if operators != [] {
      RequestCount(operators[..|operators| - 1], receiver, address, priority, spans);
      RequestsAt(operators[|operators| - 1], receiver, address, priority, spans);
      assert (|operators| - 1) * |spans| + |spans| == |operators| * |spans|;
    }
  }

  lemma RowIndex(o: nat, rows: nat, n: nat, p: nat)
    requires o < rows && p < n
    ensures o * n + p < rows * n
  {
    assert (o + 1) * n <= rows * n;
  }

  /** Every operator asks for every period exactly once, at a place given by the two indices. */
  lemma {:induction false} EveryPairIsRequested(
    operators: seq<int>, receiver: int, address: string, priority: string, spans: seq<Span>, o: nat, p: nat)
    requires o < |operators| && p < |spans|
    ensures var commands := AllRequests(operators, receiver, address, priority, spans);
            && |commands| == |operators| * |spans|
            && o * |spans| + p < |commands|
            && commands[o * |spans| + p] ==
               Command(operators[o], receiver, address, priority, spans[p].from, spans[p].until)
  {
    var front := operators[..|operators| - 1];
    RequestCount(operators, receiver, address, priority, spans);
    RequestCount(front, receiver, address, priority, spans);
    RowIndex(o, |operators|, |spans|, p);
    if o < |front| {
      EveryPairIsRequested(front, receiver, address, priority, spans, o, p);
    } else {
      RequestsAt(operators[o], receiver, address, priority, spans);
    }
  }

  /** What the requests are for: every operator asks for every needed delivery day, the calendar day before
      which lies in the interval of one of its commands. */
  lemma EveryNeededDayIsRequested(
    operators: seq<int>, receiver: int, address: string, priority: string, spans: seq<Span>, needed: set<int>,
    o: nat, day: int)
    requires IsMerge(spans, needed) && day in needed && o < |operators|
    ensures exists k :: 0 <= k < |AllRequests(operators, receiver, address, priority, spans)| &&
              var c := AllRequests(operators, receiver, address, priority, spans)[k];
              && c.senderKey == operators[o] && c.receiverKey == receiver && c.routingAddress == address
              && c.priority == priority && c.fromDate <= day - 1 < c.toDate
  {
    assert Covered(spans, day);
    var p :| 0 <= p < |spans| && spans[p].Covers(day);
    EveryPairIsRequested(operators, receiver, address, priority, spans, o, p);
    var c := AllRequests(operators, receiver, address, priority, spans)[o * |spans| + p];
    assert c.fromDate <= day - 1 < c.toDate;
  }

  method MakeCommands(
    operators: seq<int>, periods: seq<TimePeriod>, ghost spans: seq<Span>, receiver: int, address: string,
    priority: string)
    returns (commands: seq<Command>)
    requires Holds(periods, Closed(spans))
    ensures commands == AllRequests(operators, receiver, address, priority, spans)
  {
    commands := [];
    for o := 0 to |operators|
      invariant commands == AllRequests(operators[..o], receiver, address, priority, spans)
    {
      ghost var before := commands;
      for p := 0 to |periods|
        invariant commands == before + Requests(operators[o], receiver, address, priority, spans[..p])
      {
        assert Closed(spans)[p] == ClosedPeriod(spans[p]);
        assert spans[..p + 1][..p] == spans[..p];
        var period := periods[p];
        commands := commands + [Command(operators[o], receiver, address, priority, period.From, period.Until.value)];
      }
      assert spans[..|spans|] == spans;
      assert operators[..o + 1][..o] == operators[..o];
    }
    assert operators[..|operators|] == operators;
  }

  /** The whole of CreateNewAuctionCommands behind its option parsing. */
  method CreateNewAuctionCommands(
    operators: seq<int>, start: int, days: int, defined: set<int>, force: bool, receiver: int, address: string,
    priority: string)
    returns (commands: seq<Command>, ghost spans: seq<Span>)
    ensures IsMerge(spans, Needed(start, start + days, defined, force))
    ensures commands == AllRequests(operators, receiver, address, priority, spans)
  {
    hide IsMerge, AllRequests;
    var periods;
    periods, spans := MergePeriods(start, start + days, defined, force);
    commands := MakeCommands(operators, periods, spans, receiver, address, priority);
  }
}
