/** Which maps can be expanded completely: the acyclic ones, and no other. A map without costs holds a
    loop of references, and no pass gets rid of it. */
module ExpansionLoops {
  import opened Templates
  import opened ConfigurationMap
  import opened StringExpander
  import opened StructuralExpansion
  import opened ExpansionMeaning
  import opened ExpansionCompleteness

  /** One stop of a pass, on templates. */
  function Stop(tm: map<string, Template>, key: string): map<string, Template>
    requires key in tm
  {
    tm[key := Expand(tm[key], tm, 0).template]
  }

  /** Every stop of a pass keeps `inv`. */
  ghost predicate Kept(inv: map<string, Template> -> bool) {
    forall tm, key :: inv(tm) && key in tm ==> inv(Stop(tm, key))
  }

  lemma {:induction false} PassKeeps(inv: map<string, Template> -> bool, m: map<string, string>, order: seq<string>)
    requires AllWellFormed(m) && Kept(inv) && inv(TemplatesOf(m)) && forall key :: key in order ==> key in m
    ensures var p := Pass(m, order); AllWellFormed(p.entries) && inv(TemplatesOf(p.entries))
    decreases order
  {
    hide Scan, Parse, Expand;
    if order != [] {
      var key := order[0];
      EntryStep(m, key);
      assert TemplatesOf(m[key := ScanEntry(m, key).text]) == Stop(TemplatesOf(m), key);
      PassKeeps(inv, m[key := ScanEntry(m, key).text], order[1..]);
    }
  }

  /** What a pass keeps holds before the last pass of a run, which gives the result. */
  lemma {:induction false} LastPass(
    inv: map<string, Template> -> bool, m: map<string, string>, order: seq<string>, retry: nat, limit: nat)
    returns (last: map<string, string>)
    requires AllWellFormed(m) && Kept(inv) && inv(TemplatesOf(m)) && Enumerates(order, m)
    ensures AllWellFormed(last) && inv(TemplatesOf(last)) && last.Keys == m.Keys
    ensures var r, p := Passes(m, order, retry, limit), Pass(last, order);
            && r.entries == p.entries && r.missing == p.missing
            && AllWellFormed(p.entries) && inv(TemplatesOf(p.entries))
    decreases limit - retry
  {
    hide Pass, Parse, TemplatesOf;
    PassKeeps(inv, m, order);
    var p := Pass(m, order);
    if p.changed > 0 && retry + 1 < limit {
      last := LastPass(inv, p.entries, order, retry + 1, limit);
    } else {
      last := m;
    }
  }

  /** Read from the left, over references in `through` only, the template comes to one in `loop`. */
  predicate Reaches(t: Template, through: set<string>, loop: set<string>) {
    t.Ref? && (t.key in loop || (t.key in through && Reaches(t.rest, through, loop)))
  }

  /** Every template of a nonempty set of keys comes to a reference into that set. */
  ghost predicate IsLoop(tm: map<string, Template>, through: set<string>, loop: set<string>) {
    loop != {} && loop <= tm.Keys && forall key :: key in loop ==> Reaches(tm[key], through, loop)
  }

  /** The replacements it takes to get past the references in `through` and the first one behind them,
      when getting past the value of each key takes `costs[key]` replacements. */
  function LeftCost(t: Template, costs: map<string, nat>, through: set<string>): nat {
    match t
    case End(_) => 0
    case Ref(_, key, rest) =>
      (if key in costs then 1 + costs[key] else 0) + (if key in through then LeftCost(rest, costs, through) else 0)
  }

  ghost predicate LeftCovers(costs: map<string, nat>, tm: map<string, Template>, through: set<string>) {
    costs.Keys == tm.Keys && forall key :: key in tm ==> LeftCost(tm[key], costs, through) <= costs[key]
  }

  /** With one more key costed the other costs stay, as far as they do not depend on it. */
  lemma {:induction false} LeftCostLocal(
    t: Template, costs: map<string, nat>, through: set<string>, open: set<string>, key: string, cost: nat)
    requires !Reaches(t, through, open) && key in open && key !in costs
    ensures LeftCost(t, costs[key := cost], through) == LeftCost(t, costs, through)
    ensures !Reaches(t, through, open - {key})
  {
    if t.Ref? && t.key in through {
      LeftCostLocal(t.rest, costs, through, open, key, cost);
    }
  }

  /** The keys that are not costed yet. */
  function Open(tm: map<string, Template>, costs: map<string, nat>): set<string> {
    tm.Keys - costs.Keys
  }

  /** Some keys are costed, and none of them depends on one that is not. */
  ghost predicate PartlyCosted(costs: map<string, nat>, tm: map<string, Template>, through: set<string>) {
    costs.Keys <= tm.Keys &&
    forall key :: key in costs ==>
      !Reaches(tm[key], through, Open(tm, costs)) && LeftCost(tm[key], costs, through) <= costs[key]
  }

  /** A key whose references are costed, as far as the walk comes, can be costed itself. */
  lemma CostOneMore(tm: map<string, Template>, through: set<string>, costs: map<string, nat>, key: string)
    requires PartlyCosted(costs, tm, through) && key in Open(tm, costs) && !Reaches(tm[key], through, Open(tm, costs))
    ensures var costs' := costs[key := LeftCost(tm[key], costs, through)];
            PartlyCosted(costs', tm, through) && |Open(tm, costs')| < |Open(tm, costs)|
  {
    hide Reaches, LeftCost;
    var open, cost := Open(tm, costs), LeftCost(tm[key], costs, through);
    var costs' := costs[key := cost];
    assert Open(tm, costs') == open - {key};
    forall k | k in costs'
      ensures !Reaches(tm[k], through, open - {key}) && LeftCost(tm[k], costs', through) <= costs'[k]
    {
      LeftCostLocal(tm[k], costs, through, open, key, cost);
    }
  }

  /** When no key can be costed any more, all are or those that are not form a loop. */
  lemma CostedOrLoop(tm: map<string, Template>, through: set<string>, costs: map<string, nat>)
    requires PartlyCosted(costs, tm, through)
    requires forall key :: key in Open(tm, costs) ==> Reaches(tm[key], through, Open(tm, costs))
    ensures LeftCovers(costs, tm, through) || IsLoop(tm, through, Open(tm, costs))
  {
    hide Reaches, LeftCost;
    if Open(tm, costs) == {} {
      assert forall key :: key in tm ==> key in costs || key in Open(tm, costs);
    }
  }

  /** Either all keys can be costed, or those that cannot are a loop. */
  lemma {:induction false} CostsOrLoop(tm: map<string, Template>, through: set<string>, costs: map<string, nat>)
    requires PartlyCosted(costs, tm, through)
    ensures (exists all :: LeftCovers(all, tm, through)) || (exists loop :: IsLoop(tm, through, loop))
    decreases |Open(tm, costs)|
  {
    hide Reaches, LeftCost, PartlyCosted, LeftCovers, IsLoop;
    if key :| key in Open(tm, costs) && !Reaches(tm[key], through, Open(tm, costs)) {
      CostOneMore(tm, through, costs, key);
      CostsOrLoop(tm, through, costs[key := LeftCost(tm[key], costs, through)]);
    } else {
      CostedOrLoop(tm, through, costs);
    }
  }

  /** When no reference ends the walk, these are the costs of the whole template. */
  lemma {:induction false} LeftCostOfAll(t: Template, costs: map<string, nat>, through: set<string>)
    ensures LeftCost(t, costs, through) <= CostOf(t, costs)
    ensures Refs(t) <= through ==> LeftCost(t, costs, through) == CostOf(t, costs)
  {
    if t.Ref? {
      LeftCostOfAll(t.rest, costs, through);
    }
  }

  /** A reference of the template lies in `loop`. */
  predicate RefersInto(t: Template, loop: set<string>) {
    t.Ref? && (t.key in loop || RefersInto(t.rest, loop))
  }

  /** Every key of the loop refers into it. */
  ghost predicate Knot(tm: map<string, Template>, loop: set<string>) {
    loop != {} && loop <= tm.Keys && forall key :: key in loop ==> RefersInto(tm[key], loop)
  }

  lemma {:induction false} RefersIntoIff(t: Template, loop: set<string>)
    ensures RefersInto(t, loop) <==> !(Refs(t) !! loop)
  {
    if t.Ref? {
      RefersIntoIff(t.rest, loop);
    }
  }

  lemma {:induction false} ReachesRefers(t: Template, through: set<string>, loop: set<string>)
    requires Reaches(t, through, loop)
    ensures RefersInto(t, loop)
  {
    if t.key !in loop {
      ReachesRefers(t.rest, through, loop);
    }
  }

  lemma {:induction false} AppendRefersInto(t: Template, u: Template, loop: set<string>)
    ensures RefersInto(Append(t, u), loop) <==> RefersInto(t, loop) || RefersInto(u, loop)
  {
    if t.Ref? {
      AppendRefersInto(t.rest, u, loop);
    }
  }

  /** A cyclic map holds a knot. */
  lemma CyclicHasKnot(m: map<string, string>)
    requires AllWellFormed(m) && !Acyclic(m)
    ensures exists loop :: Knot(TemplatesOf(m), loop)
  {
    hide Parse, LeftCost, CostOf, Reaches, RefersInto;
    var tm := TemplatesOf(m);
    var all := set key, ref | key in tm && ref in Refs(tm[key]) :: ref;
    CostsOrLoop(tm, all, map[]);
    forall costs | LeftCovers(costs, tm, all) ensures Covers(costs, tm) {
      forall key | key in tm ensures CostOf(tm[key], costs) <= costs[key] {
        LeftCostOfAll(tm[key], costs, all);
      }
    }
    CoverIffAcyclic(m);
    var loop :| IsLoop(tm, all, loop);
    forall key | key in loop ensures RefersInto(tm[key], loop) {
      ReachesRefers(tm[key], all, loop);
    }
    assert Knot(tm, loop);
  }

  /** A scan leads from a template that refers into a knot to one that does. */
  lemma {:induction false} ExpandKeepsKnot(t: Template, tm: map<string, Template>, done: nat, loop: set<string>)
    requires done <= MAX_REPLACEMENTS && Knot(tm, loop) && RefersInto(t, loop)
    ensures RefersInto(Expand(t, tm, done).template, loop)
    decreases MAX_REPLACEMENTS - done, t
  {
    hide Append, Knot;
    KnotKeys(tm, loop, t.key);
    if done < MAX_REPLACEMENTS {
      if t.key in tm {
        var u := Append(tm[t.key], t.rest);
        AppendRefersInto(tm[t.key], t.rest, loop);
        ExpandKeepsKnot(u, tm, done + 1, loop);
        AppendRefersInto(End(t.text), Expand(u, tm, done + 1).template, loop);
      } else {
        ExpandKeepsKnot(t.rest, tm, done, loop);
      }
    }
  }

  lemma KnotKeys(tm: map<string, Template>, loop: set<string>, key: string)
    requires Knot(tm, loop)
    ensures key in loop ==> key in tm && RefersInto(tm[key], loop)
  {
  }

  lemma KnotIsKept(loop: set<string>)
    ensures Kept(tm => Knot(tm, loop))
  {
    hide Expand, RefersInto;
    forall tm, key | Knot(tm, loop) && key in tm ensures Knot(Stop(tm, key), loop) {
      if key in loop {
        ExpandKeepsKnot(tm[key], tm, 0, loop);
      }
    }
  }

  lemma KnotNeverResolves(m: map<string, string>, order: seq<string>, limit: nat, loop: set<string>)
    requires AllWellFormed(m) && Enumerates(order, m) && Knot(TemplatesOf(m), loop)
    ensures !Resolved(ExpandAll(m, order, limit).entries)
  {
    hide Passes, Pass, Parse, Refs, RefersInto, TemplatesOf, Enumerates;
    KnotIsKept(loop);
    var last := LastPass(tm => Knot(tm, loop), m, order, 0, limit);
    var r := ExpandAll(m, order, limit).entries;
    TemplateKeys(r);
    var key :| key in loop;
    RefersIntoIff(TemplatesOf(r)[key], loop);
  }

  ghost predicate Bounded(costs: map<string, nat>, bound: nat) {
    forall key :: key in costs ==> costs[key] < bound
  }

  /** A finite map of costs has a bound. */
  lemma {:induction false} CostsAreBounded(costs: map<string, nat>) returns (bound: nat)
    ensures Bounded(costs, bound)
  {
    bound := 0;
    if costs != map[] {
      var key :| key in costs;
      bound := CostsAreBounded(costs - {key});
      bound := if costs[key] < bound then bound else costs[key] + 1;
      assert forall k :: k in costs ==> k == key || k in costs - {key};
    }
  }

  /** Every limit from `least` on leaves no reference to a defined key. */
  ghost predicate ResolvesFrom(m: map<string, string>, order: seq<string>, least: nat)
    requires Enumerates(order, m)
  {
    forall limit :: limit >= least ==> Resolved(ExpandAll(m, order, limit).entries)
  }

  /** Main result on complete expansion: on an acyclic map every limit from some point on leaves no
      reference to a defined key, on a cyclic map no limit does. */
  lemma ResolvesIffAcyclic(m: map<string, string>, order: seq<string>)
    requires AllWellFormed(m) && Enumerates(order, m)
    ensures Acyclic(m) <==> exists limit :: Resolved(ExpandAll(m, order, limit).entries)
    ensures Acyclic(m) <==> exists least :: ResolvesFrom(m, order, least)
  {
    hide ExpandAll, Parse, TemplatesOf, Resolved, Knot, Covers, Ranked;
    if Acyclic(m) {
      CoverIffAcyclic(m);
      var costs :| Covers(costs, TemplatesOf(m));
      var bound := CostsAreBounded(costs);
      forall limit | limit >= bound + 2 ensures Resolved(ExpandAll(m, order, limit).entries) {
        LimitIsEnough(m, order, limit, costs, bound);
      }
      assert ResolvesFrom(m, order, bound + 2);
      assert Resolved(ExpandAll(m, order, bound + 2).entries);
    } else {
      CyclicHasKnot(m);
      var loop :| Knot(TemplatesOf(m), loop);
      forall limit: nat ensures !Resolved(ExpandAll(m, order, limit).entries) {
        KnotNeverResolves(m, order, limit, loop);
      }
      forall least: nat ensures !ResolvesFrom(m, order, least) {
        assert !Resolved(ExpandAll(m, order, least).entries);
      }
    }
  }

  lemma LimitIsEnough(m: map<string, string>, order: seq<string>, limit: nat, costs: map<string, nat>, bound: nat)
    requires AllWellFormed(m) && Enumerates(order, m) && Covers(costs, TemplatesOf(m))
    requires Bounded(costs, bound) && limit >= bound + 2
    ensures Resolved(ExpandAll(m, order, limit).entries)
  {
    hide Passes, Parse, CostOf, Resolved;
    TemplateKeys(m);
    PassesComplete(m, order, 0, limit, costs);
  }
}
