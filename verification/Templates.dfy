/** Templates are the well-formed configuration values: plain text in which references of the form
    %KEY% stand. This module gives them a written form, a meaning and a cost, none of which mentions
    how the expander works. */
module Templates {
  import opened Options
  import opened Text

  const META := '%'

  /** Plain text, or plain text followed by a reference to `key` and then by the rest. */
  datatype Template = End(text: string) | Ref(text: string, key: string, rest: Template)

  predicate IsKeyChar(c: char) {
    'a' <= c <= 'z' || 'A' <= c <= 'Z' || '0' <= c <= '9' || c == '_' || c == '.' || c == '-'
  }

  /** The characters of keys, one by one. */
  lemma KeyCharacters(c: char)
    ensures IsKeyChar(c) <==> c in {
              'a', 'b', 'c', 'd', 'e', 'f', 'g', 'h', 'i', 'j', 'k', 'l', 'm',
              'n', 'o', 'p', 'q', 'r', 's', 't', 'u', 'v', 'w', 'x', 'y', 'z',
              'A', 'B', 'C', 'D', 'E', 'F', 'G', 'H', 'I', 'J', 'K', 'L', 'M',
              'N', 'O', 'P', 'Q', 'R', 'S', 'T', 'U', 'V', 'W', 'X', 'Y', 'Z',
              '0', '1', '2', '3', '4', '5', '6', '7', '8', '9', '_', '.', '-'}
  {
  }

  predicate AllKeyChars(key: string) {
    forall j :: 0 <= j < |key| ==> IsKeyChar(key[j])
  }

  predicate Plain(s: string) {
    forall j :: 0 <= j < |s| ==> s[j] != META
  }

  predicate Valid(t: Template) {
    Plain(t.text) && (t.Ref? ==> t.key != "" && AllKeyChars(t.key) && Valid(t.rest))
  }

  /** The written form of a reference. */
  function Quote(key: string): string {
    [META] + key + [META]
  }

  /** The written form of a template. */
  function Render(t: Template): string {
    match t
    case End(a) => a
    case Ref(a, key, rest) => a + Quote(key) + Render(rest)
  }

  /** Reading a written form back; None when the text is not a template. */
  function Parse(s: string): (r: Option<Template>)
    decreases |s|
  {
    var b := Find(s, META, 0);
    if b == |s| then Some(End(s))
    else
      var e := Find(s, META, b + 1);
      if e == |s| || e == b + 1 || !AllKeyChars(s[b + 1..e]) then None
      else
        match Parse(s[e + 1..])
        case None => None
        case Some(rest) => Some(Ref(s[..b], s[b + 1..e], rest))
  }

  predicate WellFormed(s: string) {
    Parse(s).Some?
  }

  /** The parts of a text around a written reference. */
  lemma ReferenceParts(pre: string, a: string, key: string, post: string)
    ensures var s, i := pre + a + Quote(key) + post, |pre| + |a|;
            && |s| == i + 2 + |key| + |post|
            && s[..i] == pre + a && s[|pre|..i] == a && s[i] == META
            && s[i + 1..i + 1 + |key|] == key && s[i + 1 + |key|] == META
            && s[i + 2 + |key|..] == post
  {
    var s, i := pre + a + Quote(key) + post, |pre| + |a|;
    assert s[..i] == pre + a;
  }

  /** The first meta character at or after `from`, told from the plain slice in front of it. */
  lemma FindAfter(s: string, from: nat, i: nat)
    requires from <= i < |s| && s[i] == META && Plain(s[from..i])
    ensures Find(s, META, from) == i
  {
    assert forall j :: from <= j < i ==> s[j] == s[from..i][j - from];
    FindIsUnique(s, META, from, i);
  }

  /** Where the meta characters of a written reference are found. */
  lemma FindReference(s: string, from: nat, a: string, key: string, i: nat)
    requires Plain(a) && AllKeyChars(key) && i == from + |a| && i + 1 + |key| < |s|
    requires s[from..i] == a && s[i] == META && s[i + 1..i + 1 + |key|] == key && s[i + 1 + |key|] == META
    ensures Find(s, META, from) == i
    ensures Find(s, META, i + 1) == i + 1 + |key|
  {
    FindAfter(s, from, i);
    FindAfter(s, i + 1, i + 1 + |key|);
  }

  /** Parsing plain text, and parsing behind a written reference. */
  lemma ParsePlain(a: string)
    requires Plain(a)
    ensures Parse(a) == Some(End(a))
  {
    FindIsUnique(a, META, 0, |a|);
  }

  lemma ParseReference(a: string, key: string, rest: string)
    requires Plain(a) && key != "" && AllKeyChars(key)
    ensures Parse(a + Quote(key) + rest) ==
            match Parse(rest)
            case None => None
            case Some(t) => Some(Ref(a, key, t))
  {
    hide Plain, AllKeyChars, Find;
    var s := a + Quote(key) + rest;
    assert s == [] + a + Quote(key) + rest;
    ReferenceParts([], a, key, rest);
    FindReference(s, 0, a, key, |a|);
  }

  /** A template is what parsing its written form gives; in particular the written form of a
      template determines it. */
  lemma {:induction false} ParseRender(t: Template)
    requires Valid(t)
    ensures Parse(Render(t)) == Some(t)
  {
    hide Parse, Plain, AllKeyChars;
    match t
    case End(a) => ParsePlain(a);
    case Ref(a, key, rest) =>
      ParseRender(rest);
      ParseReference(a, key, Render(rest));
  }

  lemma Reassemble(s: string, b: nat, e: nat)
    requires b < e < |s| && s[b] == s[e] == META
    ensures s == s[..b] + Quote(s[b + 1..e]) + s[e + 1..]
  {
  }

  /** Parsing loses nothing. */
  lemma {:induction false} RenderParse(s: string)
    requires WellFormed(s)
    ensures Valid(Parse(s).value) && Render(Parse(s).value) == s
    decreases |s|
  {
    var b := Find(s, META, 0);
    FindIsFirst(s, META, 0);
    if b < |s| {
      var e := Find(s, META, b + 1);
      FindIsFirst(s, META, b + 1);
      RenderParse(s[e + 1..]);
      Reassemble(s, b, e);
    }
  }

  /** The keys a template refers to. */
  function Refs(t: Template): set<string> {
    match t
    case End(_) => {}
    case Ref(_, key, rest) => {key} + Refs(rest)
  }

  /** What a reference stands for: the value of its key, or itself when the key is unknown. */
  function Lookup(key: string, values: map<string, string>): string {
    if key in values then values[key] else Quote(key)
  }

  /** The meaning of a template: every reference is replaced at once, none of the replacing text is
      read again. */
  function Subst(t: Template, values: map<string, string>): string {
    match t
    case End(a) => a
    case Ref(a, key, rest) => a + Lookup(key, values) + Subst(rest, values)
  }

  /** The number of single replacements it takes to expand a template, when the value behind each
      key takes `costs[key]` replacements itself. */
  function CostOf(t: Template, costs: map<string, nat>): nat {
    match t
    case End(_) => 0
    case Ref(_, key, rest) => (if key in costs then 1 + costs[key] else 0) + CostOf(rest, costs)
  }

  /** Templates in a row, as one template. */
  function Append(t: Template, u: Template): Template {
    match t
    case End(a) => u.(text := a + u.text)
    case Ref(a, key, rest) => Ref(a, key, Append(rest, u))
  }

  lemma {:induction false} AppendIsConcatenation(t: Template, u: Template)
    ensures Render(Append(t, u)) == Render(t) + Render(u)
    ensures Valid(t) && Valid(u) ==> Valid(Append(t, u))
    ensures Refs(Append(t, u)) == Refs(t) + Refs(u)
  {
    match t
    case End(_) =>
    case Ref(a, key, rest) =>
      AppendIsConcatenation(rest, u);
      assert a + Quote(key) + (Render(rest) + Render(u)) == a + Quote(key) + Render(rest) + Render(u);
  }

  /** Meaning and cost of templates in a row. */
  lemma {:induction false} AppendMeaning(t: Template, u: Template, values: map<string, string>, costs: map<string, nat>)
    ensures Subst(Append(t, u), values) == Subst(t, values) + Subst(u, values)
    ensures CostOf(Append(t, u), costs) == CostOf(t, costs) + CostOf(u, costs)
  {
    match t
    case End(_) =>
    case Ref(a, key, rest) =>
      AppendMeaning(rest, u, values, costs);
      var head := a + Lookup(key, values);
      assert head + (Subst(rest, values) + Subst(u, values)) == head + Subst(rest, values) + Subst(u, values);
  }

  /** Meaning looks only at the keys a template refers to. */
  lemma {:induction false} OnlyRefsMatter(t: Template, v1: map<string, string>, v2: map<string, string>)
    requires forall key :: key in Refs(t) ==> Lookup(key, v1) == Lookup(key, v2)
    ensures Subst(t, v1) == Subst(t, v2)
  {
    if t.Ref? {
      OnlyRefsMatter(t.rest, v1, v2);
    }
  }

  /** A template costs nothing exactly when it refers to no defined key, and then it means itself. */
  lemma {:induction false} FreeIffNoRefs(t: Template, costs: map<string, nat>, values: map<string, string>)
    requires costs.Keys == values.Keys
    ensures CostOf(t, costs) == 0 <==> Refs(t) !! costs.Keys
    ensures CostOf(t, costs) == 0 ==> Subst(t, values) == Render(t)
  {
    if t.Ref? {
      FreeIffNoRefs(t.rest, costs, values);
    }
  }

  /** Cheaper keys make cheaper templates. */
  lemma {:induction false} CostIsMonotone(t: Template, c1: map<string, nat>, c2: map<string, nat>)
    requires c1.Keys == c2.Keys
    requires forall key :: key in c1 ==> c1[key] <= c2[key]
    ensures CostOf(t, c1) <= CostOf(t, c2)
  {
    if t.Ref? {
      CostIsMonotone(t.rest, c1, c2);
    }
  }

  /** Every defined key a template refers to costs strictly less than the template. */
  lemma {:induction false} RefsCostLess(t: Template, costs: map<string, nat>, key: string)
    requires key in Refs(t) && key in costs
    ensures costs[key] < CostOf(t, costs)
  {
    if key != t.key {
      RefsCostLess(t.rest, costs, key);
    }
  }
}
