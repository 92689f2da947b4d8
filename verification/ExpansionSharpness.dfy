/** The completeness bound cannot be improved: an entry all of whose known references lead straight to
    values without known references is expanded completely exactly when it holds at most
    MAX_REPLACEMENTS such references per pass that may be made. */
module ExpansionSharpness {
  import opened Templates
  import opened ConfigurationMap
  import opened StringExpander
  import opened StructuralExpansion
  import opened ExpansionMeaning
  import opened ExpansionCompleteness

  /** The references of `t` to defined keys. */
  function KnownRefs(t: Template, keys: set<string>): nat {
    CostOf(t, Free(keys))
  }

  function Free(keys: set<string>): map<string, nat> {
    map key | key in keys :: 0
  }

  /** Every known reference of `t` leads to a value without known references. */
  ghost predicate OneStep(t: Template, tm: map<string, Template>) {
    forall ref :: ref in Refs(t) && ref in tm ==> Refs(tm[ref]) !! tm.Keys
  }

  /** A scan of such a template replaces one reference after the other and stops only at the limit or
      at the end. */
  lemma {:induction false} ExpandOneStep(t: Template, tm: map<string, Template>, done: nat)
    requires done <= MAX_REPLACEMENTS && OneStep(t, tm)
    ensures var r := Expand(t, tm, done);
            && OneStep(r.template, tm)
            && KnownRefs(r.template, tm.Keys) + (r.replacements - done) == KnownRefs(t, tm.Keys)
            && (r.replacements < MAX_REPLACEMENTS ==> KnownRefs(r.template, tm.Keys) == 0)
    decreases MAX_REPLACEMENTS - done, t
  {
    if t.Ref? && done < MAX_REPLACEMENTS {
      if t.key in tm {
        var u := Append(tm[t.key], t.rest);
        OneStepReplaced(t, tm);
        ExpandOneStep(u, tm, done + 1);
        OneStepPrefixed(t.text, Expand(u, tm, done + 1).template, tm);
        hide KnownRefs, OneStep, Append;
      } else {
        ExpandOneStep(t.rest, tm, done);
      }
    }
  }

  /** Replacing the first reference takes one known reference away. */
  lemma OneStepReplaced(t: Template, tm: map<string, Template>)
    requires t.Ref? && t.key in tm && OneStep(t, tm)
    ensures var u := Append(tm[t.key], t.rest);
            OneStep(u, tm) && KnownRefs(u, tm.Keys) + 1 == KnownRefs(t, tm.Keys)
  {
    AppendIsConcatenation(tm[t.key], t.rest);
    AppendMeaning(tm[t.key], t.rest, map[], Free(tm.Keys));
    FreeIffNoRefs(tm[t.key], Free(tm.Keys), map k | k in tm :: "");
  }

  /** Text in front of a template changes none of this. */
  lemma OneStepPrefixed(a: string, t: Template, tm: map<string, Template>)
    requires OneStep(t, tm)
    ensures OneStep(Append(End(a), t), tm) && KnownRefs(Append(End(a), t), tm.Keys) == KnownRefs(t, tm.Keys)
  {
    AppendIsConcatenation(End(a), t);
    AppendMeaning(End(a), t, map[], Free(tm.Keys));
  }

  /** A template without known references is left alone. */
  lemma {:induction false} ResolvedStays(t: Template, tm: map<string, Template>, done: nat)
    requires done <= MAX_REPLACEMENTS && Refs(t) !! tm.Keys
    ensures Expand(t, tm, done).template == t
    decreases t
  {
    if t.Ref? && done < MAX_REPLACEMENTS {
      ResolvedStays(t.rest, tm, done);
    }
  }

  /** The entry `key` has only references that lead straight to resolved values. */
  ghost predicate OneStepEntry(m: map<string, string>, key: string) {
    AllWellFormed(m) && key in m && OneStep(TemplatesOf(m)[key], TemplatesOf(m))
  }

  function KnownRefsOf(m: map<string, string>, key: string): nat
    requires AllWellFormed(m) && key in m
  {
    KnownRefs(TemplatesOf(m)[key], m.Keys)
  }

  /** Scanning one entry: the known references of `key` go down by the replacements if `key` is the
      entry scanned, and stay if it is another one. */
  lemma OneStepScan(m: map<string, string>, scanned: string, key: string)
    requires OneStepEntry(m, key) && scanned in m
    ensures var s := ScanEntry(m, scanned);
            var m' := m[scanned := s.text];
            && OneStepEntry(m', key)
            && KnownRefsOf(m', key) == (if scanned == key then AfterPass(KnownRefsOf(m, key)) else KnownRefsOf(m, key))
            && (scanned == key && KnownRefsOf(m, key) > 0 ==> s.replacements > 0)
  {
    hide Scan, Parse, Expand, CostOf;
    EntryStep(m, scanned);
    TemplateKeys(m);
    var tm := TemplatesOf(m);
    var r := Expand(tm[scanned], tm, 0);
    var tm' := tm[scanned := r.template];
    assert tm'.Keys == tm.Keys;
    if scanned == key {
      ExpandOneStep(tm[key], tm, 0);
      forall ref | ref in Refs(tm'[key]) && ref in tm' ensures Refs(tm'[ref]) !! tm'.Keys {
        assert Refs(tm[ref]) !! tm.Keys;
        if ref == key {
          NoRefsNoWork(tm[key], tm);
        }
      }
    } else {
      forall ref | ref in Refs(tm'[key]) && ref in tm' ensures Refs(tm'[ref]) !! tm'.Keys {
        if ref == scanned {
          ResolvedStays(tm[ref], tm, 0);
        }
      }
    }
  }

  lemma NoRefsNoWork(t: Template, tm: map<string, Template>)
    requires Refs(t) !! tm.Keys
    ensures Expand(t, tm, 0).template == t
  {
    ResolvedStays(t, tm, 0);
  }

  lemma {:induction false} OneStepPass(m: map<string, string>, order: seq<string>, key: string)
    requires OneStepEntry(m, key) && (forall k :: k in order ==> k in m)
    requires forall i, j :: 0 <= i < j < |order| ==> order[i] != order[j]
    ensures var p := Pass(m, order);
            && OneStepEntry(p.entries, key)
            && KnownRefsOf(p.entries, key) ==
               (if key in order then AfterPass(KnownRefsOf(m, key)) else KnownRefsOf(m, key))
            && (key in order && KnownRefsOf(m, key) > 0 ==> p.changed > 0)
    decreases order
  {
    hide Scan, OneStepEntry, KnownRefsOf;
    if order != [] {
      assert order[0] !in order[1..];
      KeyInMap(m, key);
      OneStepScan(m, order[0], key);
      OneStepPass(m[order[0] := ScanEntry(m, order[0]).text], order[1..], key);
    }
  }

  lemma KeyInMap(m: map<string, string>, key: string)
    requires OneStepEntry(m, key)
    ensures AllWellFormed(m) && key in m
  {
  }

  lemma {:induction false} OneStepPasses(
    m: map<string, string>, order: seq<string>, retry: nat, limit: nat, key: string)
    requires OneStepEntry(m, key) && Enumerates(order, m)
    ensures var r, bound := Passes(m, order, retry, limit), MAX_REPLACEMENTS * PassesLeft(retry, limit);
            && OneStepEntry(r.entries, key)
            && KnownRefsOf(r.entries, key) == (if KnownRefsOf(m, key) <= bound then 0 else KnownRefsOf(m, key) - bound)
    decreases limit - retry
  {
    hide Pass, Passes, OneStepEntry, KnownRefsOf, AllWellFormed;
    KeyInMap(m, key);
    OneStepPass(m, order, key);
    PassesTurn(m, order, retry, limit);
    var p := Pass(m, order);
    KeyInMap(p.entries, key);
    if p.changed > 0 && retry + 1 < limit {
      OneStepPasses(p.entries, order, retry + 1, limit, key);
    }
  }

  /** The bound is exact. */
  lemma CompleteIffWithinBound(m: map<string, string>, order: seq<string>, limit: nat, key: string)
    requires OneStepEntry(m, key) && Enumerates(order, m)
    ensures var r := ExpandAll(m, order, limit).entries;
            && AllWellFormed(r)
            && (Refs(TemplatesOf(r)[key]) !! m.Keys <==> KnownRefsOf(m, key) <= MAX_REPLACEMENTS * PassesLeft(0, limit))
  {
    hide Passes, Parse, Refs, CostOf;
    OneStepPasses(m, order, 0, limit, key);
    var r := ExpandAll(m, order, limit).entries;
    TemplateKeys(r);
    FreeIffNoRefs(TemplatesOf(r)[key], Free(m.Keys), map k | k in m :: "");
  }

  /** A template of `n` references to one key. */
  function Times(key: string, n: nat): Template {
    if n == 0 then End("") else Ref("", key, Times(key, n - 1))
  }

  lemma {:induction false} TimesFacts(key: string, n: nat, keys: set<string>)
    requires key != "" && AllKeyChars(key) && key in keys
    ensures Valid(Times(key, n)) && KnownRefs(Times(key, n), keys) == n && Refs(Times(key, n)) <= {key}
  {
    if n > 0 {
      TimesFacts(key, n - 1, keys);
    }
  }

  /** The limits in numbers: with `n` references to a plain value, the value is expanded completely if and
      only if `n` is at most ten times the number of passes, of which there is at least one. */
  lemma TenPerPass(m: map<string, string>, order: seq<string>, limit: nat, n: nat)
    requires m == map["A" := "x", "B" := Render(Times("A", n))] && Enumerates(order, m)
    ensures var r, passes := ExpandAll(m, order, limit).entries, if limit == 0 then 1 else limit;
            AllWellFormed(r) && (Refs(TemplatesOf(r)["B"]) !! m.Keys <==> n <= 10 * passes)
  {
    hide Passes, Parse, Render, KnownRefs;
    var t := Times("A", n);
    TimesFacts("A", n, m.Keys);
    ParseRender(t);
    ParsePlain("x");
    assert TemplatesOf(m)["A"] == End("x") && TemplatesOf(m)["B"] == t;
    assert OneStepEntry(m, "B");
    CompleteIffWithinBound(m, order, limit, "B");
  }
}
