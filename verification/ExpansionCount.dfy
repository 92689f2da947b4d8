/** What ExpandMap reports. For every well-formed map it is proved when the values become final, when the
    returned count comes to tell how many of them still hold a meta character, and when it never does. */
module ExpansionCount {
  import opened Text
  import opened Templates
  import opened ConfigurationMap
  import opened StringExpander
  import opened StructuralExpansion
  import opened ExpansionMeaning
  import opened ExpansionCompleteness
  import opened ExpansionLoops

  /** The number of entries along `order` whose value still holds a meta character. */
  function Unexpanded(order: seq<string>, m: map<string, string>): nat
    requires forall key :: key in order ==> key in m
  {
    if order == [] then 0
    else (if Plain(m[order[0]]) then 0 else 1) + Unexpanded(order[1..], m)
  }

  /** No scan of the pass is cut off by the replacement limit before it misses a reference. */
  ghost predicate Uncut(m: map<string, string>, order: seq<string>)
    requires forall key :: key in order ==> key in m
  {
    order != [] ==>
      var s := ScanEntry(m, order[0]);
      (s.replacements < MAX_REPLACEMENTS || s.missed > 0) && Uncut(m[order[0] := s.text], order[1..])
  }

  /** A scan that is not cut off misses a reference exactly when one is left. */
  lemma {:induction false} MissedMeansLeft(t: Template, tm: map<string, Template>, done: nat)
    requires done <= MAX_REPLACEMENTS
    ensures Expand(t, tm, done).missed > 0 ==> Expand(t, tm, done).template.Ref?
    ensures Expand(t, tm, done).replacements < MAX_REPLACEMENTS && Expand(t, tm, done).template.Ref? ==>
              Expand(t, tm, done).missed > 0
    decreases MAX_REPLACEMENTS - done, t
  {
    if t.Ref? && done < MAX_REPLACEMENTS {
      if t.key in tm {
        MissedMeansLeft(Append(tm[t.key], t.rest), tm, done + 1);
      } else {
        MissedMeansLeft(t.rest, tm, done);
      }
    }
  }

  lemma PlainIffNoReference(t: Template)
    requires Valid(t)
    ensures Plain(Render(t)) <==> t.End?
  {
    if t.Ref? {
      assert Render(t)[|t.text|] == META;
    }
  }

  lemma EntryReports(m: map<string, string>, key: string)
    requires AllWellFormed(m) && key in m
    ensures var s := ScanEntry(m, key);
            && (s.missed > 0 ==> !Plain(s.text))
            && (s.replacements < MAX_REPLACEMENTS && !Plain(s.text) ==> s.missed > 0)
  {
    hide Scan, Parse, Expand, Plain;
    EntryStep(m, key);
    var r := Expand(TemplatesOf(m)[key], TemplatesOf(m), 0);
    MissedMeansLeft(TemplatesOf(m)[key], TemplatesOf(m), 0);
    RenderParse(ScanEntry(m, key).text);
    PlainIffNoReference(r.template);
  }

  /** A pass reports at most the entries that still hold a meta character, and all of them when no
      scan is cut off before it misses a reference. */
  lemma {:induction false} PassReports(m: map<string, string>, order: seq<string>)
    requires AllWellFormed(m) && (forall key :: key in order ==> key in m)
    requires forall i, j :: 0 <= i < j < |order| ==> order[i] != order[j]
    ensures Pass(m, order).missing <= Unexpanded(order, Pass(m, order).entries)
    ensures Uncut(m, order) ==> Pass(m, order).missing == Unexpanded(order, Pass(m, order).entries)
    decreases order
  {
    hide Scan, Parse, Plain;
    if order != [] {
      var key, rest := order[0], order[1..];
      var m' := m[key := ScanEntry(m, key).text];
      EntryStep(m, key);
      EntryReports(m, key);
      PassReports(m', rest);
      assert key !in rest;
      PassLeavesOthers(m', rest, key);
    }
  }

  lemma {:induction false} IdlePassIsUncut(m: map<string, string>, order: seq<string>)
    requires (forall key :: key in order ==> key in m) && Pass(m, order).changed == 0
    ensures Uncut(m, order)
    decreases order
  {
    hide Scan;
    if order != [] {
      IdlePassIsUncut(m[order[0] := ScanEntry(m, order[0]).text], order[1..]);
    }
  }

  /** What the last pass of a run is known to report. */
  lemma {:induction false} PassesReport(m: map<string, string>, order: seq<string>, retry: nat, limit: nat)
    requires AllWellFormed(m) && Enumerates(order, m)
    ensures var r := Passes(m, order, retry, limit);
            && r.missing <= Unexpanded(order, r.entries)
            && (r.changed == 0 ==> r.missing == Unexpanded(order, r.entries) && Resolved(r.entries))
    decreases limit - retry
  {
    hide Pass, Unexpanded, Parse, Refs, TemplatesOf;
    var p := Pass(m, order);
    PassReports(m, order);
    PassKeepsWellFormed(m, order);
    if p.changed == 0 {
      IdlePassIsUncut(m, order);
      IdlePassMeansResolved(m, order);
    }
    if p.changed > 0 && retry + 1 < limit {
      PassesReport(p.entries, order, retry + 1, limit);
    }
  }

  lemma {:induction false} PassKeepsWellFormed(m: map<string, string>, order: seq<string>)
    requires AllWellFormed(m) && forall key :: key in order ==> key in m
    ensures AllWellFormed(Pass(m, order).entries)
    decreases order
  {
    hide Scan, Parse;
    if order != [] {
      EntryStep(m, order[0]);
      PassKeepsWellFormed(m[order[0] := ScanEntry(m, order[0]).text], order[1..]);
    }
  }

  /** The keys of the set refer to each other only: no reference behind them is unknown. */
  ghost predicate Quiet(tm: map<string, Template>, keys: set<string>) {
    keys <= tm.Keys && forall key :: key in keys ==> Refs(tm[key]) <= keys
  }

  /** All keys behind which no reference is unknown. */
  ghost function QuietKeys(tm: map<string, Template>): set<string> {
    set key | key in tm && exists keys :: Quiet(tm, keys) && key in keys
  }

  /** A key is quiet exactly when all its references are. */
  ghost predicate QuietFrom(tm: map<string, Template>, quiet: set<string>) {
    quiet <= tm.Keys && forall key :: key in tm ==> (key in quiet <==> Refs(tm[key]) <= quiet)
  }

  lemma QuietKeysAreQuiet(tm: map<string, Template>)
    ensures QuietFrom(tm, QuietKeys(tm))
  {
    hide Refs;
    var quiet := QuietKeys(tm);
    forall key | key in quiet ensures Refs(tm[key]) <= quiet {
      var keys :| Quiet(tm, keys) && key in keys;
    }
    forall key | key in tm && Refs(tm[key]) <= quiet ensures key in quiet {
      assert Quiet(tm, quiet + {key});
    }
  }

  /** The references in `quiet` followed by the rest: what is to be paid for templates in a row. */
  lemma {:induction false} AppendLeftCost(t: Template, u: Template, costs: map<string, nat>, quiet: set<string>)
    ensures LeftCost(Append(t, u), costs, quiet) ==
            LeftCost(t, costs, quiet) + if Refs(t) <= quiet then LeftCost(u, costs, quiet) else 0
  {
    if t.Ref? {
      AppendLeftCost(t.rest, u, costs, quiet);
    }
  }

  /** A scan keeps whether a reference behind a template is unknown. */
  lemma {:induction false} ExpandKeepsQuiet(t: Template, tm: map<string, Template>, done: nat, quiet: set<string>)
    requires done <= MAX_REPLACEMENTS && QuietFrom(tm, quiet)
    ensures var r := Expand(t, tm, done);
            && (Refs(t) <= quiet <==> Refs(r.template) <= quiet)
            && (Refs(t) <= quiet ==> r.missed == 0)
    decreases MAX_REPLACEMENTS - done, t
  {
    if t.Ref? && done < MAX_REPLACEMENTS {
      if t.key in tm {
        var u := Append(tm[t.key], t.rest);
        AppendIsConcatenation(tm[t.key], t.rest);
        ExpandKeepsQuiet(u, tm, done + 1, quiet);
        AppendIsConcatenation(End(t.text), Expand(u, tm, done + 1).template);
      } else {
        ExpandKeepsQuiet(t.rest, tm, done, quiet);
      }
    }
  }

  /** A scan pays one unit for every replacement until it misses a reference, and then nothing is left
      to pay. */
  lemma {:induction false} ExpandSettles(
    t: Template, tm: map<string, Template>, done: nat, costs: map<string, nat>, quiet: set<string>)
    requires done <= MAX_REPLACEMENTS && LeftCovers(costs, tm, quiet) && QuietFrom(tm, quiet)
    ensures var r := Expand(t, tm, done);
            var left := LeftCost(r.template, costs, quiet);
            && ((r.missed > 0 && left == 0) || left + (r.replacements - done) <= LeftCost(t, costs, quiet))
            && (r.replacements < MAX_REPLACEMENTS ==> left == 0)
    decreases MAX_REPLACEMENTS - done, t
  {
    if t.Ref? && done < MAX_REPLACEMENTS {
      if t.key in tm {
        var u := Append(tm[t.key], t.rest);
        ExpandSettles(u, tm, done + 1, costs, quiet);
        AppendLeftCost(tm[t.key], t.rest, costs, quiet);
        AppendLeftCost(End(t.text), Expand(u, tm, done + 1).template, costs, quiet);
      } else {
        ExpandSettles(t.rest, tm, done, costs, quiet);
      }
    }
  }

  /** `costs` bounds the replacements after which the value of each key has missed a reference or is
      fully expanded. */
  ghost predicate Settles(costs: map<string, nat>, m: map<string, string>, quiet: set<string>) {
    AllWellFormed(m) && LeftCovers(costs, TemplatesOf(m), quiet) && QuietFrom(TemplatesOf(m), quiet)
  }

  lemma {:induction false} LeftCostIsMonotone(
    t: Template, c1: map<string, nat>, c2: map<string, nat>, quiet: set<string>)
    requires c1.Keys == c2.Keys && forall key :: key in c1 ==> c1[key] <= c2[key]
    ensures LeftCost(t, c1, quiet) <= LeftCost(t, c2, quiet)
  {
    if t.Ref? {
      LeftCostIsMonotone(t.rest, c1, c2, quiet);
    }
  }

  lemma EntrySettles(m: map<string, string>, key: string, costs: map<string, nat>, quiet: set<string>)
    requires Settles(costs, m, quiet) && key in m
    ensures var s := ScanEntry(m, key);
            && key in costs
            && Settles(costs[key := AfterPass(costs[key])], m[key := s.text], quiet)
            && (s.missed > 0 || s.replacements <= costs[key])
  {
    hide Scan, Parse, Expand, Refs, LeftCost;
    EntryStep(m, key);
    var tm := TemplatesOf(m);
    var r := Expand(tm[key], tm, 0);
    var costs', tm' := costs[key := AfterPass(costs[key])], tm[key := r.template];
    ExpandSettles(tm[key], tm, 0, costs, quiet);
    ExpandKeepsQuiet(tm[key], tm, 0, quiet);
    forall k | k in tm' ensures LeftCost(tm'[k], costs', quiet) <= costs'[k] {
      LeftCostIsMonotone(tm'[k], costs', costs, quiet);
    }
  }

  lemma {:induction false} PassSettles(
    m: map<string, string>, order: seq<string>, costs: map<string, nat>, quiet: set<string>)
    requires Settles(costs, m, quiet)
    requires (forall key :: key in order ==> key in m) && forall i, j :: 0 <= i < j < |order| ==> order[i] != order[j]
    ensures Settles(AfterPassOver(costs, order), Pass(m, order).entries, quiet)
    ensures (forall key :: key in order ==> key in costs && costs[key] < MAX_REPLACEMENTS) ==> Uncut(m, order)
    decreases order
  {
    hide Scan, Settles, AfterPass;
    if order == [] {
      assert AfterPassOver(costs, order) == costs;
    } else {
      var key, rest := order[0], order[1..];
      EntrySettles(m, key, costs, quiet);
      var costs' := costs[key := AfterPass(costs[key])];
      assert key !in rest;
      PassSettles(m[key := ScanEntry(m, key).text], rest, costs', quiet);
      assert AfterPassOver(costs', rest) == AfterPassOver(costs, order);
    }
  }

  lemma SettledKeys(costs: map<string, nat>, m: map<string, string>, quiet: set<string>)
    requires Settles(costs, m, quiet)
    ensures AllWellFormed(m) && costs.Keys == m.Keys
  {
    hide Parse;
    TemplateKeys(m);
  }

  /** With room to spare for every key the count is exact. */
  lemma {:induction false} SettledPassesReport(
    m: map<string, string>, order: seq<string>, retry: nat, limit: nat, costs: map<string, nat>, quiet: set<string>)
    requires Settles(costs, m, quiet) && Enumerates(order, m) &&
        Bounded(costs, MAX_REPLACEMENTS * PassesLeft(retry, limit))
    ensures var r := Passes(m, order, retry, limit); r.missing == Unexpanded(order, r.entries)
    decreases limit - retry
  {
    hide Pass, Settles, Uncut, Parse, Unexpanded;
    var p := Pass(m, order);
    SettledKeys(costs, m, quiet);
    PassSettles(m, order, costs, quiet);
    PassReports(m, order);
    if p.changed == 0 {
      IdlePassIsUncut(m, order);
    } else if retry + 1 < limit {
      SettledPassesReport(p.entries, order, retry + 1, limit, AfterPassOver(costs, order), quiet);
    }
  }

  /** Every entry needs strictly fewer replacements than the limits allow until it is fully expanded or
      a reference in it is missed. */
  ghost predicate RoomToSpare(m: map<string, string>, limit: nat)
    requires AllWellFormed(m)
  {
    exists costs :: LeftCovers(costs, TemplatesOf(m), QuietKeys(TemplatesOf(m))) &&
                    Bounded(costs, MAX_REPLACEMENTS * PassesLeft(0, limit))
  }

  /** In particular there is room to spare when the costs of full expansion leave it. */
  lemma CostsLeaveRoom(m: map<string, string>, limit: nat, costs: map<string, nat>)
    requires AllWellFormed(m) && Covers(costs, TemplatesOf(m)) &&
        Bounded(costs, MAX_REPLACEMENTS * PassesLeft(0, limit))
    ensures RoomToSpare(m, limit)
  {
    hide Parse, LeftCost, CostOf;
    var tm := TemplatesOf(m);
    forall key | key in tm ensures LeftCost(tm[key], costs, QuietKeys(tm)) <= costs[key] {
      LeftCostOfAll(tm[key], costs, QuietKeys(tm));
    }
    assert LeftCovers(costs, tm, QuietKeys(tm));
  }

  /** The returned count under one limit. It never exceeds the number of entries that still hold a meta
      character; it equals that number when the last pass changed nothing, and also when there is room
      to spare. */
  lemma ReturnedCount(m: map<string, string>, order: seq<string>, limit: nat)
    requires AllWellFormed(m) && Enumerates(order, m)
    ensures var r := ExpandAll(m, order, limit);
            && r.missing <= Unexpanded(order, r.entries)
            && (r.changed == 0 || RoomToSpare(m, limit) ==> r.missing == Unexpanded(order, r.entries))
  {
    hide Passes, Unexpanded, LeftCovers, TemplatesOf, Parse;
    PassesReport(m, order, 0, limit);
    if RoomToSpare(m, limit) {
      var costs :| LeftCovers(costs, TemplatesOf(m), QuietKeys(TemplatesOf(m))) &&
          Bounded(costs, MAX_REPLACEMENTS * PassesLeft(0, limit));
      QuietKeysAreQuiet(TemplatesOf(m));
      SettledPassesReport(m, order, 0, limit, costs, QuietKeys(TemplatesOf(m)));
    }
  }

  /** A loop of references that is entered before any unknown reference: in front of the reference into
      the loop stand only references behind which none is unknown. */
  ghost predicate IsSilentLoop(tm: map<string, Template>, quiet: set<string>, loop: set<string>) {
    Quiet(tm, quiet) && IsLoop(tm, quiet, loop)
  }

  ghost predicate SilentLoop(m: map<string, string>) {
    AllWellFormed(m) && exists quiet, loop :: IsSilentLoop(TemplatesOf(m), quiet, loop)
  }

  lemma {:induction false} AppendReaches(t: Template, u: Template, quiet: set<string>, loop: set<string>)
    ensures Reaches(t, quiet, loop) ==> Reaches(Append(t, u), quiet, loop)
    ensures Refs(t) <= quiet && Reaches(u, quiet, loop) ==> Reaches(Append(t, u), quiet, loop)
  {
    if t.Ref? {
      AppendReaches(t.rest, u, quiet, loop);
    }
  }

  /** A scan that enters the loop does not leave it, and misses nothing. */
  lemma {:induction false} ExpandKeepsSilence(
    t: Template, tm: map<string, Template>, done: nat, quiet: set<string>, loop: set<string>)
    requires done <= MAX_REPLACEMENTS && Quiet(tm, quiet)
    requires loop <= tm.Keys && forall key :: key in loop ==> Reaches(tm[key], quiet, loop)
    ensures var r := Expand(t, tm, done);
            && (Refs(t) <= quiet ==> r.missed == 0 && Refs(r.template) <= quiet)
            && (Reaches(t, quiet, loop) ==> r.missed == 0 && Reaches(r.template, quiet, loop))
    decreases MAX_REPLACEMENTS - done, t
  {
    if t.Ref? && done < MAX_REPLACEMENTS {
      if t.key in tm {
        var u := Append(tm[t.key], t.rest);
        AppendIsConcatenation(tm[t.key], t.rest);
        AppendReaches(tm[t.key], t.rest, quiet, loop);
        ExpandKeepsSilence(u, tm, done + 1, quiet, loop);
        AppendIsConcatenation(End(t.text), Expand(u, tm, done + 1).template);
        AppendReaches(End(t.text), Expand(u, tm, done + 1).template, quiet, loop);
      }
    }
  }

  lemma SilenceIsKept(quiet: set<string>, loop: set<string>)
    ensures Kept(tm => IsSilentLoop(tm, quiet, loop))
  {
    hide Expand, Reaches, Refs;
    forall tm, key | IsSilentLoop(tm, quiet, loop) && key in tm ensures IsSilentLoop(Stop(tm, key), quiet, loop) {
      ExpandKeepsSilence(tm[key], tm, 0, quiet, loop);
    }
  }

  /** A pass reports less than is left when it comes by an entry of the loop. */
  lemma {:induction false} SilentPass(
    m: map<string, string>, order: seq<string>, quiet: set<string>, loop: set<string>, key: string)
    requires AllWellFormed(m) && IsSilentLoop(TemplatesOf(m), quiet, loop) && key in loop && key in order
    requires (forall k :: k in order ==> k in m) && forall i, j :: 0 <= i < j < |order| ==> order[i] != order[j]
    ensures Pass(m, order).missing < Unexpanded(order, Pass(m, order).entries)
    decreases order
  {
    hide Scan, Parse, Plain, IsSilentLoop, Expand;
    var first, rest := order[0], order[1..];
    var m' := m[first := ScanEntry(m, first).text];
    EntryStep(m, first);
    EntryReports(m, first);
    assert first !in rest;
    PassLeavesOthers(m', rest, first);
    if first == key {
      PassReports(m', rest);
      SilentEntry(m, quiet, loop, key);
    } else {
      SilenceIsKept(quiet, loop);
      assert TemplatesOf(m') == Stop(TemplatesOf(m), first);
      SilentPass(m', rest, quiet, loop, key);
    }
  }

  /** An entry of the loop is left with a meta character and not reported. */
  lemma SilentEntry(m: map<string, string>, quiet: set<string>, loop: set<string>, key: string)
    requires AllWellFormed(m) && IsSilentLoop(TemplatesOf(m), quiet, loop) && key in loop
    ensures key in m && ScanEntry(m, key).missed == 0 && !Plain(ScanEntry(m, key).text)
  {
    hide Scan, Parse, Plain, Expand, Refs;
    var tm := TemplatesOf(m);
    EntryStep(m, key);
    ExpandKeepsSilence(tm[key], tm, 0, quiet, loop);
    RenderParse(ScanEntry(m, key).text);
    PlainIffNoReference(Expand(tm[key], tm, 0).template);
  }

  /** Every limit from `least` on makes the count exact. */
  ghost predicate ExactFrom(m: map<string, string>, order: seq<string>, least: nat)
    requires Enumerates(order, m)
  {
    forall limit :: limit >= least ==>
      ExpandAll(m, order, limit).missing == Unexpanded(order, ExpandAll(m, order, limit).entries)
  }

  /** Main result on the returned count. Without a silent loop every limit from some point on makes it
      exactly the number of entries that still hold a meta character, so that 0 says none is left; with
      a silent loop it is smaller under every limit. */
  lemma CountIsExactIff(m: map<string, string>, order: seq<string>)
    requires AllWellFormed(m) && Enumerates(order, m)
    ensures SilentLoop(m) ==>
              forall limit :: ExpandAll(m, order, limit).missing < Unexpanded(order, ExpandAll(m, order, limit).entries)
    ensures (exists least :: ExactFrom(m, order, least)) <==> !SilentLoop(m)
  {
    hide Passes, Parse, Unexpanded, TemplatesOf, IsSilentLoop;
    if SilentLoop(m) {
      var quiet, loop :| IsSilentLoop(TemplatesOf(m), quiet, loop);
      forall limit: nat
          ensures ExpandAll(m, order, limit).missing < Unexpanded(order, ExpandAll(m, order, limit).entries) {
        SilentRun(m, order, limit, quiet, loop);
      }
      forall least: nat ensures !ExactFrom(m, order, least) {
        assert ExpandAll(m, order, least).missing != Unexpanded(order, ExpandAll(m, order, least).entries);
      }
    } else {
      var costs := SettlingCosts(m);
      var bound := CostsAreBounded(costs);
      forall limit | limit >= bound + 2
        ensures ExpandAll(m, order, limit).missing == Unexpanded(order, ExpandAll(m, order, limit).entries) {
        SettledPassesReport(m, order, 0, limit, costs, QuietKeys(TemplatesOf(m)));
      }
      assert ExactFrom(m, order, bound + 2);
    }
  }

  lemma SilentRun(m: map<string, string>, order: seq<string>, limit: nat, quiet: set<string>, loop: set<string>)
    requires AllWellFormed(m) && IsSilentLoop(TemplatesOf(m), quiet, loop) && Enumerates(order, m)
    ensures ExpandAll(m, order, limit).missing < Unexpanded(order, ExpandAll(m, order, limit).entries)
  {
    hide Passes, Pass, WellFormed, Reaches, Quiet, TemplatesOf, Unexpanded, Kept, Stop;
    SilenceIsKept(quiet, loop);
    var last := LastPass(tm => IsSilentLoop(tm, quiet, loop), m, order, 0, limit);
    var key :| key in loop;
    TemplateKeys(m);
    SilentPass(last, order, quiet, loop, key);
  }

  /** Without a silent loop every key settles. */
  lemma SettlingCosts(m: map<string, string>) returns (costs: map<string, nat>)
    requires AllWellFormed(m) && !SilentLoop(m)
    ensures Settles(costs, m, QuietKeys(TemplatesOf(m)))
  {
    hide Parse, LeftCovers, IsLoop, TemplatesOf;
    var tm := TemplatesOf(m);
    var quiet := QuietKeys(tm);
    QuietKeysAreQuiet(tm);
    CostsOrLoop(tm, quiet, map[]);
    forall loop ensures !IsLoop(tm, quiet, loop) {
      assert !IsSilentLoop(tm, quiet, loop);
    }
    costs :| LeftCovers(costs, tm, quiet);
  }

  /** Every reference of the map is defined. */
  ghost predicate AllDefined(m: map<string, string>) {
    AllWellFormed(m) && Quiet(TemplatesOf(m), m.Keys)
  }

  lemma QuietIsKept(keys: set<string>)
    ensures Kept(tm => Quiet(tm, keys))
  {
    hide Expand, Refs;
    forall tm, key | Quiet(tm, keys) && key in tm ensures Quiet(Stop(tm, key), keys) {
      ExpandKeepsSilence(tm[key], tm, 0, keys, {});
    }
  }

  lemma {:induction false} QuietPass(m: map<string, string>, order: seq<string>)
    requires AllDefined(m) && forall key :: key in order ==> key in m
    ensures Pass(m, order).missing == 0
    decreases order
  {
    hide Scan, Parse, Expand, Refs;
    if order != [] {
      var key := order[0];
      EntryStep(m, key);
      TemplateKeys(m);
      ExpandKeepsSilence(TemplatesOf(m)[key], TemplatesOf(m), 0, m.Keys, {});
      assert TemplatesOf(m[key := ScanEntry(m, key).text]) == Stop(TemplatesOf(m), key);
      QuietPass(m[key := ScanEntry(m, key).text], order[1..]);
    }
  }

  /** On a map in which every reference is defined, resolved values are plain values. */
  lemma DefinedResolvedIffPlain(m: map<string, string>, order: seq<string>)
    requires AllDefined(m) && Enumerates(order, m)
    ensures Resolved(m) <==> Unexpanded(order, m) == 0
  {
    hide Parse, Plain, Unexpanded;
    UnexpandedZero(order, m);
    TemplateKeys(m);
    forall key | key in m ensures Plain(m[key]) <==> Refs(TemplatesOf(m)[key]) !! m.Keys {
      RenderParse(m[key]);
      PlainIffNoReference(TemplatesOf(m)[key]);
    }
  }

  /** On a map in which every reference is defined the result is 0 whatever happens. It is exact
      precisely when every reference has been resolved, hence for all large limits on acyclic maps and
      never on cyclic ones. */
  lemma ZeroOnDefinedMaps(m: map<string, string>, order: seq<string>, limit: nat)
    requires AllDefined(m) && Enumerates(order, m)
    ensures var r := ExpandAll(m, order, limit);
            && r.missing == 0
            && (r.missing == Unexpanded(order, r.entries) <==> Resolved(r.entries))
    ensures SilentLoop(m) <==> !Acyclic(m)
  {
    hide Passes, Pass, Parse, Refs, TemplatesOf, Unexpanded, Resolved, Acyclic, SilentLoop;
    DefinedRun(m, order, limit);
    ResolvesIffAcyclic(m, order);
    CountIsExactIff(m, order);
    if least :| ExactFrom(m, order, least) {
      DefinedRun(m, order, least);
      assert Resolved(ExpandAll(m, order, least).entries);
    }
    if least :| ResolvesFrom(m, order, least) {
      DefinedRun(m, order, least);
      assert Resolved(ExpandAll(m, order, least).entries);
    }
  }

  lemma DefinedRun(m: map<string, string>, order: seq<string>, limit: nat)
    requires AllDefined(m) && Enumerates(order, m)
    ensures var r := ExpandAll(m, order, limit);
            && r.missing == 0
            && (Unexpanded(order, r.entries) == 0 <==> Resolved(r.entries))
  {
    hide Passes, Pass, WellFormed, Quiet, TemplatesOf, Unexpanded, Resolved, Kept, Stop;
    QuietIsKept(m.Keys);
    var last := LastPass(tm => Quiet(tm, m.Keys), m, order, 0, limit);
    QuietPass(last, order);
    DefinedResolvedIffPlain(ExpandAll(m, order, limit).entries, order);
  }

  /** Nothing unexpanded along an order that covers the map: every value is plain. */
  lemma {:induction false} UnexpandedZero(order: seq<string>, m: map<string, string>)
    requires forall key :: key in order ==> key in m
    ensures Unexpanded(order, m) == 0 <==> forall key :: key in order ==> Plain(m[key])
  {
    hide Plain;
    if order != [] {
      UnexpandedZero(order[1..], m);
      assert forall key :: key in order <==> key == order[0] || key in order[1..];
    }
  }

  /** Outside those cases a result of 0 can hide unexpanded values: an entry that refers to itself is
      never missed and never resolved, whatever the limit. */
  lemma SelfReferenceReportsZero(m: map<string, string>, limit: nat)
    requires m == map["A" := "%A%"] && Enumerates(["A"], m)
    ensures var r := ExpandAll(m, ["A"], limit);
            r.missing == 0 && r.entries == m && !Plain(m["A"])
  {
    hide Scan, Parse, Find, Passes;
    var t := Ref("", "A", End(""));
    assert Render(t) == "%A%";
    ParseRender(t);
    assert m["A"][0] == META;
    SelfReferenceExpands(t, TemplatesOf(m), 0);
    EntryStep(m, "A");
    assert Pass(m, ["A"]) == Pass(m["A" := ScanEntry(m, "A").text], []).Plus(ScanEntry(m, "A"));
    SelfReferencePasses(m, 0, limit);
  }

  /** A loop is not enough: behind a missed reference it does no harm to the count. */
  lemma CyclicYetExact()
    ensures var m := map["A" := "%U%%A%"]; AllWellFormed(m) && !Acyclic(m) && !SilentLoop(m)
  {
    hide Parse, Find;
    var t := Ref("", "U", Ref("", "A", End("")));
    var m := map["A" := "%U%%A%"];
    assert Render(t.rest) == "%A%";
    assert Render(t) == "%U%%A%";
    ParseRender(t);
    assert TemplatesOf(m)["A"] == t;
    assert "A" in Refs(t);
    forall quiet, loop ensures !IsSilentLoop(TemplatesOf(m), quiet, loop) {
      assert "U" !in m.Keys;
    }
  }

  lemma {:induction false} SelfReferenceExpands(t: Template, tm: map<string, Template>, done: nat)
    requires t == Ref("", "A", End("")) && tm == map["A" := t] && done <= MAX_REPLACEMENTS
    ensures Expand(t, tm, done) == Expansion(t, MAX_REPLACEMENTS, 0)
    decreases MAX_REPLACEMENTS - done
  {
    if done < MAX_REPLACEMENTS {
      SelfReferenceExpands(t, tm, done + 1);
      assert Append(tm["A"], End("")) == t;
    }
  }

  lemma {:induction false} SelfReferencePasses(m: map<string, string>, retry: nat, limit: nat)
    requires "A" in m && Pass(m, ["A"]).entries == m && Pass(m, ["A"]).missing == 0
    ensures Passes(m, ["A"], retry, limit).entries == m && Passes(m, ["A"], retry, limit).missing == 0
    decreases limit - retry
  {
    hide Pass;
    if retry + 1 < limit {
      SelfReferencePasses(m, retry + 1, limit);
    }
  }
}
