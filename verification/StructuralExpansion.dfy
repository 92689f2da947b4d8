/** The expander described on templates instead of text: the leftmost known reference is replaced by
    the template of its value, unknown references are stepped over. The text scanner is shown to
    compute exactly this on every well-formed map. */
module StructuralExpansion {
  import opened Text
  import opened Templates
  import opened StringExpander

  predicate AllWellFormed(m: map<string, string>) {
    forall key :: key in m ==> WellFormed(m[key])
  }

  /** The values of a well-formed map, as templates. */
  function TemplatesOf(m: map<string, string>): map<string, Template>
    requires AllWellFormed(m)
  {
    map key | key in m :: Parse(m[key]).value
  }

  datatype Expansion = Expansion(template: Template, replacements: nat, missed: nat)

  /** At most MAX_REPLACEMENTS replacements, leftmost first, in what follows the current position. */
  function Expand(t: Template, tm: map<string, Template>, done: nat): (r: Expansion)
    requires done <= MAX_REPLACEMENTS
    ensures done <= r.replacements <= MAX_REPLACEMENTS
    ensures r.replacements == done ==> r.template == t
    decreases MAX_REPLACEMENTS - done, t
  {
    match t
    case End(_) => Expansion(t, done, 0)
    case Ref(a, key, rest) =>
      if done == MAX_REPLACEMENTS then Expansion(t, done, 0)
      else if key in tm then
        var r := Expand(Append(tm[key], rest), tm, done + 1);
        Expansion(Append(End(a), r.template), r.replacements, r.missed)
      else
        var r := Expand(rest, tm, done);
        Expansion(Ref(a, key, r.template), r.replacements, r.missed + 1)
  }

  lemma {:induction false} ExpandIsValid(t: Template, tm: map<string, Template>, done: nat)
    requires done <= MAX_REPLACEMENTS && Valid(t)
    requires forall key :: key in tm ==> Valid(tm[key])
    ensures Valid(Expand(t, tm, done).template)
    decreases MAX_REPLACEMENTS - done, t
  {
    if t.Ref? && done < MAX_REPLACEMENTS {
      if t.key in tm {
        AppendIsConcatenation(tm[t.key], t.rest);
        ExpandIsValid(Append(tm[t.key], t.rest), tm, done + 1);
      } else {
        ExpandIsValid(t.rest, tm, done);
      }
    }
  }

  /** What the scanner finds at a reference of a template. */
  lemma LookAtReference(pre: string, a: string, key: string, rest: string, m: map<string, string>)
    requires Plain(a) && key != "" && AllKeyChars(key)
    ensures var x, b := pre + a + Quote(key) + rest, |pre| + |a|;
            var e := b + 1 + |key|;
            && LookAt(x, m, |pre|) == (if key in m then Hit(b, e, key) else Unknown(b, e))
            && e < |x| && x[..b] == pre + a && x[..e + 1] == pre + a + Quote(key) && x[e + 1..] == rest
  {
    var x, b := pre + a + Quote(key) + rest, |pre| + |a|;
    var e := b + 1 + |key|;
    ReferenceParts(pre, a, key, rest);
    FindReference(x, |pre|, a, key, b);
    assert x[b + 1] == x[b + 1..e][0] == key[0];
    assert Find(x, META, b + 1) == Find(x, META, b + 2);
    assert x[..e + 1] == pre + a + Quote(key);
  }

  lemma LookAtEnd(pre: string, a: string, m: map<string, string>)
    requires Plain(a) && a != ""
    ensures LookAt(pre + a, m, |pre|) == Exhausted
  {
    var x := pre + a;
    assert forall j :: |pre| <= j < |x| ==> x[j] == a[j - |pre|];
    FindIsUnique(x, META, |pre|, |x|);
  }

  lemma StrayPositions(pre: string, junk: string, rest: string, pos: nat)
    requires pos <= |pre| && Plain(pre[pos..]) && junk != "" && Plain(junk[1..]) && !AllKeyChars(junk)
    ensures var x, b, e := pre + Quote(junk) + rest, |pre|, |pre| + 1 + |junk|;
            e < |x| && IsFirst(x, '%', pos, b) && IsFirst(x, '%', b + 2, e) && !KeyBetween(x, b, e)
  {
    var x, b, e := pre + Quote(junk) + rest, |pre|, |pre| + 1 + |junk|;
    assert forall j :: pos <= j < b ==> x[j] == pre[pos..][j - pos];
    assert forall j :: b + 2 <= j < e ==> x[j] == junk[1..][j - b - 2];
    var k :| 0 <= k < |junk| && !IsKeyChar(junk[k]);
    assert x[b + 1 + k] == junk[k];
  }

  /** A stray meta character, anywhere in the text and at any point of the scan: when the text between it
      and the next one but its neighbour is no key, the scan goes on at that next one, which is looked at
      as the opening of a reference. The text between may itself start with a meta character. */
  lemma StrayMetaCharacter(
    pre: string, junk: string, rest: string, m: map<string, string>, pos: nat, done: nat)
    requires pos <= |pre| && Plain(pre[pos..]) && junk != "" && Plain(junk[1..]) && !AllKeyChars(junk)
    requires done < MAX_REPLACEMENTS
    ensures var x := pre + Quote(junk) + rest;
            Scan(x, m, pos, done) == Scan(x, m, |pre| + 1 + |junk|, done)
  {
    StrayPositions(pre, junk, rest, pos);
    var x := pre + Quote(junk) + rest;
    hide Scan, KeyBetween, IsFirst;
    ScanByPositions(x, m, pos, done, |pre|, |pre| + 1 + |junk|);
  }

  /** A doubled meta character stops nothing: what stands behind it is expanded. */
  lemma DoubledMetaCharacter(m: map<string, string>)
    requires m == map["A" := "x", "B" := "5%% of %A%"]
    ensures Scan(m["B"], m, 0, 0) == ScanResult("5%% of x", 1, 0)
  {
    hide Scan;
    var x, junk := "5%% of %A%", "% of ";
    assert x == "5" + Quote(junk) + "A%";
    assert !IsKeyChar(junk[0]);
    StrayMetaCharacter("5", junk, "A%", m, 0, 0);
    assert IsFirst(x, '%', 7, 7) && IsFirst(x, '%', 9, 9);
    assert x[8..9] == "A";
    assert x[..7] + "x" + x[10..] == "5%% of x";
    ScanByPositions(x, m, 7, 0, 7, 9);
    ScanStops("5%% of x", m, 7, 1);
  }

  /** The text scanner refines the structural expansion: scanning the written form of `t` behind any
      text `pre` writes `pre` followed by the written form of the expansion, with the same counts. */
  lemma {:induction false} ScanRefinesExpand(pre: string, t: Template, m: map<string, string>, done: nat)
    requires AllWellFormed(m) && Valid(t) && done <= MAX_REPLACEMENTS
    ensures var r := Expand(t, TemplatesOf(m), done);
            Scan(pre + Render(t), m, |pre|, done) == ScanResult(pre + Render(r.template), r.replacements, r.missed)
    decreases MAX_REPLACEMENTS - done, t
  {
    hide Find, LookAt, Append, Render, Scan;
    ScanOfTemplate(pre, t, m, done);
    if t.Ref? && done < MAX_REPLACEMENTS {
      var tm := TemplatesOf(m);
      if t.key in m {
        var u := Append(tm[t.key], t.rest);
        RenderParse(m[t.key]);
        AppendIsConcatenation(tm[t.key], t.rest);
        ScanRefinesExpand(pre + t.text, u, m, done + 1);
        var r := Expand(u, tm, done + 1).template;
        AppendIsConcatenation(End(t.text), r);
        RenderEnd(t.text);
        assert pre + t.text + Render(r) == pre + (t.text + Render(r));
      } else {
        ScanRefinesExpand(pre + t.text + Quote(t.key), t.rest, m, done);
        var r := Expand(t.rest, tm, done).template;
        RenderRef(t.text, t.key, r);
        assert pre + t.text + Quote(t.key) + Render(r) == pre + (t.text + Quote(t.key) + Render(r));
      }
    }
  }

  lemma RenderEnd(a: string)
    ensures Render(End(a)) == a
  {
  }

  lemma RenderRef(a: string, key: string, rest: Template)
    ensures Render(Ref(a, key, rest)) == a + Quote(key) + Render(rest)
  {
  }

  /** One turn of the scanner at the first reference of a template. */
  lemma ScanOfTemplate(pre: string, t: Template, m: map<string, string>, done: nat)
    requires Valid(t) && done <= MAX_REPLACEMENTS
    ensures var scan := Scan(pre + Render(t), m, |pre|, done);
            if t.End? || done == MAX_REPLACEMENTS then scan == ScanResult(pre + Render(t), done, 0)
            else if t.key in m then
              scan == Scan(pre + t.text + (m[t.key] + Render(t.rest)), m, |pre + t.text|, done + 1)
            else
              var left := pre + t.text + Quote(t.key);
              scan == Scan(left + Render(t.rest), m, |left|, done).Plus(1)
  {
    hide Find, LookAt, Splice;
    var x := pre + Render(t);
    if |pre| == |x| || done == MAX_REPLACEMENTS {
      ScanEnd(x, m, |pre|, done);
    } else if t.End? {
      LookAtEnd(pre, t.text, m);
      ScanTurn(Scan(x, m, |pre|, done), x, m, |pre|, done, 0);
    } else {
      var rest := Render(t.rest);
      assert x == pre + t.text + Quote(t.key) + rest;
      LookAtReference(pre, t.text, t.key, rest, m);
      ScanTurn(Scan(x, m, |pre|, done), x, m, |pre|, done, 0);
      SpliceReference(x, |pre + t.text|, |pre + t.text| + 1 + |t.key|, pre + t.text, rest, m, t.key);
      assert pre + t.text + Quote(t.key) + rest == x;
    }
  }

  lemma SpliceReference(x: string, b: nat, e: nat, left: string, rest: string, m: map<string, string>, key: string)
    requires b <= e < |x| && x[..b] == left && x[e + 1..] == rest
    ensures key in m ==> Splice(x, b, e, m[key]) == left + (m[key] + rest)
  {
  }
}
