/** Expanding the configuration keeps what every entry means, although a pass reads entries that the
    same pass has already overwritten. A meaning is any solution of the equations
    "value of key = value template with every reference replaced by its value"; acyclic maps have
    exactly one, the full recursive expansion. */
module ExpansionMeaning {
  import opened Options
  import opened Text
  import opened Templates
  import opened ConfigurationMap
  import opened StringExpander
  import opened StructuralExpansion

  ghost predicate Solves(values: map<string, string>, tm: map<string, Template>) {
    values.Keys == tm.Keys && forall key :: key in tm ==> Subst(tm[key], values) == values[key]
  }

  /** `values` is a meaning of the well-formed map `m`. */
  ghost predicate IsMeaning(values: map<string, string>, m: map<string, string>) {
    AllWellFormed(m) && Solves(values, TemplatesOf(m))
  }

  /** A scan does not change the meaning of the text it works on. */
  lemma {:induction false} ExpandKeepsMeaning(
    t: Template, tm: map<string, Template>, done: nat, values: map<string, string>)
    requires done <= MAX_REPLACEMENTS && Solves(values, tm)
    ensures Subst(Expand(t, tm, done).template, values) == Subst(t, values)
    decreases MAX_REPLACEMENTS - done, t
  {
    if t.Ref? && done < MAX_REPLACEMENTS {
      if t.key in tm {
        var u := Append(tm[t.key], t.rest);
        ExpandKeepsMeaning(u, tm, done + 1, values);
        AppendMeaning(tm[t.key], t.rest, values, map[]);
        AppendMeaning(End(t.text), Expand(u, tm, done + 1).template, values, map[]);
        assert t.text + (values[t.key] + Subst(t.rest, values)) == t.text + values[t.key] + Subst(t.rest, values);
      } else {
        ExpandKeepsMeaning(t.rest, tm, done, values);
      }
    }
  }

  /** Writing the result of one scan back: the map stays well-formed, and its templates change at that
      key alone, to the structural expansion. */
  lemma EntryStep(m: map<string, string>, key: string)
    requires AllWellFormed(m) && key in m
    ensures var s, r := ScanEntry(m, key), Expand(TemplatesOf(m)[key], TemplatesOf(m), 0);
            && s.replacements == r.replacements && s.missed == r.missed && s.text == Render(r.template)
            && Parse(s.text) == Some(r.template)
            && AllWellFormed(m[key := s.text])
            && TemplatesOf(m[key := s.text]) == TemplatesOf(m)[key := r.template]
  {
    hide Scan, Parse, Render, Expand, Find, Valid;
    var tm := TemplatesOf(m);
    forall k | k in m ensures Valid(tm[k]) && Render(tm[k]) == m[k] {
      RenderParse(m[k]);
    }
    assert [] + Render(tm[key]) == m[key];
    ScanRefinesExpand([], tm[key], m, 0);
    var r := Expand(tm[key], tm, 0);
    assert [] + Render(r.template) == Render(r.template);
    ExpandIsValid(tm[key], tm, 0);
    ParseRender(r.template);
  }

  /** Main result on meaning, one step: overwriting an entry with its scanned text keeps every meaning
      of the map, for cyclic maps too. */
  lemma EntryKeepsMeaning(m: map<string, string>, key: string, values: map<string, string>)
    requires IsMeaning(values, m) && key in m
    ensures IsMeaning(values, m[key := ScanEntry(m, key).text])
  {
    hide Scan, Parse, Expand, Subst;
    EntryStep(m, key);
    ExpandKeepsMeaning(TemplatesOf(m)[key], TemplatesOf(m), 0, values);
  }

  lemma {:induction false} PassKeepsMeaning(m: map<string, string>, order: seq<string>, values: map<string, string>)
    requires IsMeaning(values, m) && forall key :: key in order ==> key in m
    ensures IsMeaning(values, Pass(m, order).entries)
    decreases order
  {
    if order != [] {
      EntryKeepsMeaning(m, order[0], values);
      PassKeepsMeaning(m[order[0] := ScanEntry(m, order[0]).text], order[1..], values);
    }
  }

  lemma {:induction false} PassesKeepMeaning(
    m: map<string, string>, order: seq<string>, retry: nat, limit: nat, values: map<string, string>)
    requires IsMeaning(values, m) && forall key :: key in order ==> key in m
    ensures IsMeaning(values, Passes(m, order, retry, limit).entries)
    decreases limit - retry
  {
    hide Pass, IsMeaning;
    PassKeepsMeaning(m, order, values);
    var p := Pass(m, order);
    if p.changed > 0 && retry + 1 < limit {
      PassesKeepMeaning(p.entries, order, retry + 1, limit, values);
    }
  }

  /** Main result on meaning, whole call: whatever the order and the limit, every meaning of the map
      before ExpandMap is a meaning of the map after it. About a map without a meaning it says nothing. */
  lemma ExpansionKeepsMeaning(m: map<string, string>, order: seq<string>, limit: nat, values: map<string, string>)
    requires IsMeaning(values, m) && Enumerates(order, m)
    ensures IsMeaning(values, ExpandAll(m, order, limit).entries)
  {
    PassesKeepMeaning(m, order, 0, limit, values);
  }

  /** A cyclic map need not have a meaning: a value that contains itself and more would be infinite. */
  lemma NoFiniteMeaning(values: map<string, string>)
    ensures WellFormed("x%A%") && !IsMeaning(values, map["A" := "x%A%"])
  {
    hide Parse, Find;
    var t := Ref("x", "A", End(""));
    var m := map["A" := "x%A%"];
    assert Render(t) == "x%A%";
    ParseRender(t);
    assert TemplatesOf(m)["A"] == t;
    assert "A" in values ==> |Subst(t, values)| == 1 + |values["A"]|;
  }

  /** References go down in rank: the map is acyclic. */
  ghost predicate Ranked(tm: map<string, Template>, rank: map<string, nat>) {
    rank.Keys == tm.Keys &&
    forall key, ref :: key in tm && ref in Refs(tm[key]) && ref in tm ==> rank[ref] < rank[key]
  }

  ghost predicate Acyclic(m: map<string, string>) {
    AllWellFormed(m) && exists rank :: Ranked(TemplatesOf(m), rank)
  }

  /** All references of `t` to defined keys are below `bound`. */
  ghost predicate Below(t: Template, tm: map<string, Template>, rank: map<string, nat>, bound: nat) {
    rank.Keys == tm.Keys && forall ref :: ref in Refs(t) && ref in tm ==> rank[ref] < bound
  }

  /** The full recursive expansion of a template. */
  ghost function FullExpansion(t: Template, tm: map<string, Template>, rank: map<string, nat>, bound: nat): string
    requires Ranked(tm, rank) && Below(t, tm, rank, bound)
    decreases bound, t
  {
    match t
    case End(a) => a
    case Ref(a, key, rest) =>
      a + (if key in tm then FullExpansion(tm[key], tm, rank, rank[key]) else Quote(key))
      + FullExpansion(rest, tm, rank, bound)
  }

  ghost function FullValues(tm: map<string, Template>, rank: map<string, nat>): (values: map<string, string>)
    requires Ranked(tm, rank)
    ensures values.Keys == tm.Keys
  {
    map key | key in tm :: FullExpansion(tm[key], tm, rank, rank[key])
  }

  lemma {:induction false} SubstIsFullExpansion(
    t: Template, tm: map<string, Template>, rank: map<string, nat>, bound: nat)
    requires Ranked(tm, rank) && Below(t, tm, rank, bound)
    ensures Subst(t, FullValues(tm, rank)) == FullExpansion(t, tm, rank, bound)
    decreases t
  {
    if t.Ref? {
      SubstIsFullExpansion(t.rest, tm, rank, bound);
    }
  }

  /** The full expansion is a meaning. */
  lemma FullExpansionIsMeaning(tm: map<string, Template>, rank: map<string, nat>)
    requires Ranked(tm, rank)
    ensures Solves(FullValues(tm, rank), tm)
  {
    forall key | key in tm ensures Subst(tm[key], FullValues(tm, rank)) == FullValues(tm, rank)[key] {
      SubstIsFullExpansion(tm[key], tm, rank, rank[key]);
    }
  }

  /** An acyclic map has at most one meaning. */
  lemma {:induction false} MeaningIsUnique(
    tm: map<string, Template>, rank: map<string, nat>, v1: map<string, string>, v2: map<string, string>, key: string)
    requires Ranked(tm, rank) && Solves(v1, tm) && Solves(v2, tm) && key in tm
    ensures v1[key] == v2[key]
    decreases rank[key]
  {
    forall ref | ref in Refs(tm[key]) ensures Lookup(ref, v1) == Lookup(ref, v2) {
      if ref in tm {
        MeaningIsUnique(tm, rank, v1, v2, ref);
      }
    }
    OnlyRefsMatter(tm[key], v1, v2);
  }

  /** Acyclic maps have exactly one meaning. */
  lemma AcyclicHasOneMeaning(m: map<string, string>)
    requires Acyclic(m)
    ensures exists values :: IsMeaning(values, m)
    ensures forall v1, v2 :: IsMeaning(v1, m) && IsMeaning(v2, m) ==> v1 == v2
  {
    var tm := TemplatesOf(m);
    var rank :| Ranked(tm, rank);
    FullExpansionIsMeaning(tm, rank);
    assert IsMeaning(FullValues(tm, rank), m);
    forall v1, v2 | IsMeaning(v1, m) && IsMeaning(v2, m) ensures v1 == v2 {
      forall key | key in tm ensures v1[key] == v2[key] {
        MeaningIsUnique(tm, rank, v1, v2, key);
      }
    }
  }
}
