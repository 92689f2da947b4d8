/** When the limits of the expander are large enough: an entry that needs at most MAX_REPLACEMENTS
    replacements per pass made is expanded completely, in whatever order the passes walk the map. */
module ExpansionCompleteness {
  import opened Templates
  import opened ConfigurationMap
  import opened StringExpander
  import opened StructuralExpansion
  import opened ExpansionMeaning

  /** `costs` bounds the replacements each entry needs. */
  ghost predicate Covers(costs: map<string, nat>, tm: map<string, Template>) {
    costs.Keys == tm.Keys && forall key :: key in tm ==> CostOf(tm[key], costs) <= costs[key]
  }

  /** `costs` is exactly the number of replacements each entry needs. */
  ghost predicate Counts(costs: map<string, nat>, tm: map<string, Template>) {
    costs.Keys == tm.Keys && forall key :: key in tm ==> CostOf(tm[key], costs) == costs[key]
  }

  lemma TemplateKeys(m: map<string, string>)
    requires AllWellFormed(m)
    ensures TemplatesOf(m).Keys == m.Keys
  {
  }

  /** A scan pays one unit of cost for every replacement, and stops early only when nothing is left
      to pay. */
  lemma {:induction false} ExpandPays(t: Template, tm: map<string, Template>, done: nat, costs: map<string, nat>)
    requires done <= MAX_REPLACEMENTS && Covers(costs, tm)
    ensures var r := Expand(t, tm, done);
            && CostOf(r.template, costs) + (r.replacements - done) <= CostOf(t, costs)
            && (r.replacements < MAX_REPLACEMENTS ==> CostOf(r.template, costs) == 0)
            && (Counts(costs, tm) ==> CostOf(r.template, costs) + (r.replacements - done) == CostOf(t, costs))
    decreases MAX_REPLACEMENTS - done, t
  {
    if t.Ref? && done < MAX_REPLACEMENTS {
      if t.key in tm {
        var u := Append(tm[t.key], t.rest);
        ExpandPays(u, tm, done + 1, costs);
        AppendMeaning(tm[t.key], t.rest, map[], costs);
        AppendMeaning(End(t.text), Expand(u, tm, done + 1).template, map[], costs);
      } else {
        ExpandPays(t.rest, tm, done, costs);
      }
    }
  }

  /** What is left of a cost after one pass. */
  function AfterPass(cost: nat): nat {
    if cost <= MAX_REPLACEMENTS then 0 else cost - MAX_REPLACEMENTS
  }

  function AfterPassOver(costs: map<string, nat>, order: seq<string>): map<string, nat> {
    map key | key in costs :: if key in order then AfterPass(costs[key]) else costs[key]
  }

  lemma EntryPays(m: map<string, string>, key: string, costs: map<string, nat>)
    requires AllWellFormed(m) && Covers(costs, TemplatesOf(m)) && key in m
    ensures var s := ScanEntry(m, key);
            && AllWellFormed(m[key := s.text])
            && Covers(costs[key := AfterPass(costs[key])], TemplatesOf(m[key := s.text]))
            && s.replacements <= costs[key]
  {
    hide Scan, Parse, Expand;
    EntryStep(m, key);
    var tm := TemplatesOf(m);
    ExpandPays(tm[key], tm, 0, costs);
    var r := Expand(tm[key], tm, 0);
    var costs' := costs[key := AfterPass(costs[key])];
    var tm' := tm[key := r.template];
    forall k | k in tm' ensures CostOf(tm'[k], costs') <= costs'[k] {
      CostIsMonotone(tm'[k], costs', costs);
    }
  }

  lemma {:induction false} PassPays(m: map<string, string>, order: seq<string>, costs: map<string, nat>)
    requires AllWellFormed(m) && Covers(costs, TemplatesOf(m))
    requires (forall key :: key in order ==> key in m) && forall i, j :: 0 <= i < j < |order| ==> order[i] != order[j]
    ensures var p := Pass(m, order);
            AllWellFormed(p.entries) && Covers(AfterPassOver(costs, order), TemplatesOf(p.entries))
    decreases order
  {
    hide Scan, Parse, TemplatesOf, CostOf;
    TemplateKeys(m);
    if order == [] {
      assert AfterPassOver(costs, order) == costs;
    } else {
      var key, rest := order[0], order[1..];
      EntryPays(m, key, costs);
      var costs' := costs[key := AfterPass(costs[key])];
      PassPays(m[key := ScanEntry(m, key).text], rest, costs');
      assert key !in rest;
      assert AfterPassOver(costs', rest) == AfterPassOver(costs, order);
    }
  }

  /** No entry refers to a defined key any more. */
  ghost predicate Resolved(m: map<string, string>) {
    AllWellFormed(m) && forall key :: key in m ==> Refs(TemplatesOf(m)[key]) !! m.Keys
  }

  lemma {:induction false} StuckMeansResolved(t: Template, tm: map<string, Template>, done: nat)
    requires done < MAX_REPLACEMENTS && Expand(t, tm, done).replacements == done
    ensures Refs(t) !! tm.Keys
    decreases t
  {
    if t.Ref? {
      assert t.key !in tm;
      StuckMeansResolved(t.rest, tm, done);
    }
  }

  /** A pass that changes nothing finds every entry resolved. */
  lemma {:induction false} IdlePassMeansResolved(m: map<string, string>, order: seq<string>)
    requires AllWellFormed(m) && (forall key :: key in order ==> key in m) && Pass(m, order).changed == 0
    ensures forall key :: key in order ==> Refs(TemplatesOf(m)[key]) !! m.Keys
    decreases order
  {
    hide Scan, Parse, Expand;
    if order != [] {
      var key := order[0];
      EntryStep(m, key);
      assert m[key := ScanEntry(m, key).text] == m;
      StuckMeansResolved(TemplatesOf(m)[key], TemplatesOf(m), 0);
      IdlePassMeansResolved(m, order[1..]);
    }
  }

  /** The number of passes ExpandMap can make from its `retry`-th on: at least one, whatever the limit. */
  function PassesLeft(retry: nat, limit: nat): nat {
    if retry + 1 < limit then limit - retry else 1
  }

  lemma {:induction false} PassesComplete(
    m: map<string, string>, order: seq<string>, retry: nat, limit: nat, costs: map<string, nat>)
    requires AllWellFormed(m) && Enumerates(order, m) && Covers(costs, TemplatesOf(m))
    requires forall key :: key in m ==> costs[key] <= MAX_REPLACEMENTS * PassesLeft(retry, limit)
    ensures Resolved(Passes(m, order, retry, limit).entries)
    decreases limit - retry
  {
    hide Pass, TemplatesOf, CostOf, Parse, Refs;
    var p := Pass(m, order);
    PassPays(m, order, costs);
    TemplateKeys(m);
    TemplateKeys(p.entries);
    var costs' := AfterPassOver(costs, order);
    if p.changed == 0 {
      IdlePassMeansResolved(m, order);
    } else if retry + 1 < limit {
      PassesComplete(p.entries, order, retry + 1, limit, costs');
    } else {
      forall key | key in p.entries ensures Refs(TemplatesOf(p.entries)[key]) !! p.entries.Keys {
        FreeIffNoRefs(TemplatesOf(p.entries)[key], costs', map k | k in costs' :: "");
      }
    }
  }

  /** A resolved map is its own meaning. */
  lemma ResolvedIsMeaning(m: map<string, string>, values: map<string, string>)
    requires Resolved(m) && IsMeaning(values, m)
    ensures m == values
  {
    hide Parse, Render, Subst;
    var tm := TemplatesOf(m);
    forall key | key in m ensures m[key] == values[key] {
      var costs: map<string, nat> := map k | k in m :: 0;
      FreeIffNoRefs(tm[key], costs, values);
      RenderParse(m[key]);
    }
  }

  /** Main result on completeness: when every entry needs at most MAX_REPLACEMENTS replacements for each
      pass that may be made, ExpandMap ends with exactly the meaning of the map it started from. */
  lemma ExpansionIsComplete(
    m: map<string, string>, order: seq<string>, limit: nat, values: map<string, string>, costs: map<string, nat>)
    requires IsMeaning(values, m) && Enumerates(order, m) && Covers(costs, TemplatesOf(m))
    requires forall key :: key in m ==> costs[key] <= MAX_REPLACEMENTS * PassesLeft(0, limit)
    ensures ExpandAll(m, order, limit).entries == values
  {
    PassesComplete(m, order, 0, limit, costs);
    ExpansionKeepsMeaning(m, order, limit, values);
    ResolvedIsMeaning(ExpandAll(m, order, limit).entries, values);
  }

  lemma ExampleTemplates(m: map<string, string>)
    requires m == map["A" := "Alpha", "B" := "%A%Beta"]
    ensures AllWellFormed(m)
    ensures TemplatesOf(m) == map["A" := End("Alpha"), "B" := Ref("", "A", End("Beta"))]
  {
    hide Parse;
    ParsePlain("Alpha");
    ParsePlain("Beta");
    assert "" + Quote("A") + "Beta" == "%A%Beta";
    ParseReference("", "A", "Beta");
  }

  lemma ExampleMeaning(tm: map<string, Template>, values: map<string, string>, costs: map<string, nat>)
    requires tm == map["A" := End("Alpha"), "B" := Ref("", "A", End("Beta"))]
    requires values == map["A" := "Alpha", "B" := "AlphaBeta"] && costs == map["A" := 0, "B" := 1]
    ensures Solves(values, tm) && Covers(costs, tm)
  {
    var t := Ref("", "A", End("Beta"));
    assert Subst(t.rest, values) == "Beta" && CostOf(t.rest, costs) == 0;
    assert Subst(t, values) == "" + "Alpha" + "Beta" == "AlphaBeta";
  }

  /** The documented example: with A=Alpha and B=%A%Beta the value of B becomes AlphaBeta. */
  lemma DocumentedExample(m: map<string, string>, order: seq<string>, limit: nat)
    requires m == map["A" := "Alpha", "B" := "%A%Beta"] && Enumerates(order, m)
    ensures ExpandAll(m, order, limit).entries == map["A" := "Alpha", "B" := "AlphaBeta"]
  {
    hide ExpandAll, WellFormed, TemplatesOf, Solves, Covers, Enumerates;
    var values, costs: map<string, nat> := map["A" := "Alpha", "B" := "AlphaBeta"], map["A" := 0, "B" := 1];
    ExampleTemplates(m);
    ExampleMeaning(TemplatesOf(m), values, costs);
    ExpansionIsComplete(m, order, limit, values, costs);
  }

  /** The exact number of replacements of a template of an acyclic map. */
  ghost function ReplacementsOf(t: Template, tm: map<string, Template>, rank: map<string, nat>, bound: nat): nat
    requires Ranked(tm, rank) && Below(t, tm, rank, bound)
    decreases bound, t
  {
    match t
    case End(_) => 0
    case Ref(_, key, rest) =>
      (if key in tm then 1 + ReplacementsOf(tm[key], tm, rank, rank[key]) else 0) +
          ReplacementsOf(rest, tm, rank, bound)
  }

  ghost function Replacements(tm: map<string, Template>, rank: map<string, nat>): (costs: map<string, nat>)
    requires Ranked(tm, rank)
    ensures costs.Keys == tm.Keys
  {
    map key | key in tm :: ReplacementsOf(tm[key], tm, rank, rank[key])
  }

  lemma {:induction false} CostIsReplacements(
    t: Template, tm: map<string, Template>, rank: map<string, nat>, bound: nat)
    requires Ranked(tm, rank) && Below(t, tm, rank, bound)
    ensures CostOf(t, Replacements(tm, rank)) == ReplacementsOf(t, tm, rank, bound)
    decreases t
  {
    if t.Ref? {
      CostIsReplacements(t.rest, tm, rank, bound);
    }
  }

  /** The count of an acyclic map is exact, hence a cover; and a map with a cover is acyclic. */
  lemma CoverIffAcyclic(m: map<string, string>)
    requires AllWellFormed(m)
    ensures Acyclic(m) <==> exists costs :: Covers(costs, TemplatesOf(m))
    ensures forall rank :: Ranked(TemplatesOf(m), rank) ==> Counts(Replacements(TemplatesOf(m), rank), TemplatesOf(m))
  {
    var tm := TemplatesOf(m);
    forall rank | Ranked(tm, rank) ensures Counts(Replacements(tm, rank), tm) && Covers(Replacements(tm, rank), tm) {
      forall key | key in tm ensures CostOf(tm[key], Replacements(tm, rank)) == Replacements(tm, rank)[key] {
        CostIsReplacements(tm[key], tm, rank, rank[key]);
      }
    }
    forall costs | Covers(costs, tm) ensures Ranked(tm, costs) {
      forall key, ref | key in tm && ref in Refs(tm[key]) && ref in tm ensures costs[ref] < costs[key] {
        RefsCostLess(tm[key], costs, ref);
      }
    }
  }

  /** Under the bound the result does not depend on the order in which the map is walked. */
  lemma OrderDoesNotMatter(m: map<string, string>, o1: seq<string>, o2: seq<string>, limit: nat, rank: map<string, nat>)
    requires AllWellFormed(m) && Ranked(TemplatesOf(m), rank) && Enumerates(o1, m) && Enumerates(o2, m)
    requires forall key :: key in m ==>
        Replacements(TemplatesOf(m), rank)[key] <= MAX_REPLACEMENTS * PassesLeft(0, limit)
    ensures ExpandAll(m, o1, limit).entries == ExpandAll(m, o2, limit).entries == FullValues(TemplatesOf(m), rank)
  {
    hide ExpandAll, TemplatesOf;
    var costs := Replacements(TemplatesOf(m), rank);
    CoverIffAcyclic(m);
    FullExpansionIsMeaning(TemplatesOf(m), rank);
    ExpansionIsComplete(m, o1, limit, FullValues(TemplatesOf(m), rank), costs);
    ExpansionIsComplete(m, o2, limit, FullValues(TemplatesOf(m), rank), costs);
  }
}
