/** How much work and text ExpandMap can produce, and when it has come to rest. These results hold for
    every map, well-formed or not, cyclic or not. */
module ExpansionBounds {
  import opened Text
  import opened Templates
  import opened ConfigurationMap
  import opened StringExpander
  import opened ExpansionCompleteness

  lemma {:induction false} PassesReachFixpoint(m: map<string, string>, order: seq<string>, retry: nat, limit: nat)
    requires forall key :: key in order ==> key in m
    ensures var r := Passes(m, order, retry, limit);
            r.changed == 0 ==> Pass(r.entries, order).changed == 0 && Pass(r.entries, order).missing == r.missing
    decreases limit - retry
  {
    hide Pass;
    var p := Pass(m, order);
    if p.changed > 0 && retry + 1 < limit {
      PassesReachFixpoint(p.entries, order, retry + 1, limit);
    }
  }

  /** When the last pass changed nothing, expanding once more changes neither the map nor the result;
      this holds for every map. */
  lemma ExpansionIsIdempotent(m: map<string, string>, order: seq<string>, limit: nat)
    requires Enumerates(order, m) && ExpandAll(m, order, limit).changed == 0
    ensures var r := ExpandAll(m, order, limit);
            ExpandAll(r.entries, order, limit).entries == r.entries &&
                ExpandAll(r.entries, order, limit).missing == r.missing
  {
    hide Pass;
    PassesReachFixpoint(m, order, 0, limit);
  }

  /** A value without meta characters is never touched, whatever the other values are. */
  lemma {:induction false} PlainValuesStay(m: map<string, string>, order: seq<string>, key: string)
    requires (forall k :: k in order ==> k in m) && key in m && Plain(m[key])
    ensures Pass(m, order).entries[key] == m[key]
    decreases order
  {
    hide Scan, Plain;
    if order != [] {
      if order[0] == key {
        PlainScan(m[key], m);
      }
      PlainValuesStay(m[order[0] := ScanEntry(m, order[0]).text], order[1..], key);
    }
  }

  lemma PlainScan(x: string, m: map<string, string>)
    requires Plain(x)
    ensures Scan(x, m, 0, 0).text == x
  {
    if x != "" {
      FindIsUnique(x, META, 0, |x|);
    }
  }

  lemma {:induction false} PlainValuesSurvive(
    m: map<string, string>, order: seq<string>, retry: nat, limit: nat, key: string)
    requires (forall k :: k in order ==> k in m) && key in m && Plain(m[key])
    ensures Passes(m, order, retry, limit).entries[key] == m[key]
    decreases limit - retry
  {
    hide Pass, Plain;
    PlainValuesStay(m, order, key);
    var p := Pass(m, order);
    if p.changed > 0 && retry + 1 < limit {
      PlainValuesSurvive(p.entries, order, retry + 1, limit, key);
    }
  }

  ghost predicate NoLongerThan(m: map<string, string>, len: nat) {
    forall key :: key in m ==> |m[key]| <= len
  }

  lemma OneMoreTimes(n: int, done: int, len: nat)
    ensures (n - (done + 1)) * len + len == (n - done) * len
  {
  }

  /** Each replacement adds at most the longest value. */
  lemma {:induction false} ScanLength(x: string, m: map<string, string>, pos: nat, done: nat, len: nat)
    requires pos <= |x| && done <= MAX_REPLACEMENTS && NoLongerThan(m, len)
    ensures |Scan(x, m, pos, done).text| <= |x| + (Scan(x, m, pos, done).replacements - done) * len
    decreases MAX_REPLACEMENTS - done, |x| - pos
  {
    hide Find, LookAt, Scan;
    if pos == |x| || done == MAX_REPLACEMENTS {
      ScanEnd(x, m, pos, done);
    } else {
      ScanTurn(Scan(x, m, pos, done), x, m, pos, done, 0);
      match LookAt(x, m, pos)
      case Exhausted =>
      case Hit(b, e, key) =>
        var y := Splice(x, b, e, m[key]);
        ScanLength(y, m, b, done + 1, len);
        assert |y| <= |x| + len;
        OneMoreTimes(Scan(y, m, b, done + 1).replacements, done, len);
      case Unknown(_, e) => ScanLength(x, m, e + 1, done, len);
      case Malformed(_, e) => ScanLength(x, m, e, done, len);
    }
  }

  /** `len` multiplied by 1 + MAX_REPLACEMENTS, `steps` times. */
  function Grown(len: nat, steps: nat): nat
    decreases steps
  {
    if steps == 0 then len else Grown((1 + MAX_REPLACEMENTS) * len, steps - 1)
  }

  lemma {:induction false} GrownTwice(len: nat, a: nat, b: nat)
    ensures Grown(Grown(len, a), b) == Grown(len, a + b)
    decreases a
  {
    if a > 0 {
      GrownTwice((1 + MAX_REPLACEMENTS) * len, a - 1, b);
    }
  }

  lemma {:induction false} GrownGrows(len: nat, steps: nat)
    ensures len <= Grown(len, steps)
    decreases steps
  {
    if steps > 0 {
      GrownGrows((1 + MAX_REPLACEMENTS) * len, steps - 1);
    }
  }

  lemma {:induction false} PassBounds(m: map<string, string>, order: seq<string>, len: nat)
    requires NoLongerThan(m, len) && forall key :: key in order ==> key in m
    ensures NoLongerThan(Pass(m, order).entries, Grown(len, |order|))
    ensures Pass(m, order).replacements <= MAX_REPLACEMENTS * |order|
    decreases order
  {
    hide Scan;
    if order != [] {
      var s := ScanEntry(m, order[0]);
      ScanLength(m[order[0]], m, 0, 0, len);
      assert s.replacements * len <= MAX_REPLACEMENTS * len;
      PassBounds(m[order[0] := s.text], order[1..], (1 + MAX_REPLACEMENTS) * len);
    }
  }

  lemma {:induction false} PassesBounds(m: map<string, string>, order: seq<string>, retry: nat, limit: nat, len: nat)
    requires NoLongerThan(m, len) && forall key :: key in order ==> key in m
    ensures var r, n := Passes(m, order, retry, limit), |order| * PassesLeft(retry, limit);
            NoLongerThan(r.entries, Grown(len, n)) && r.replacements <= MAX_REPLACEMENTS * n
    decreases limit - retry
  {
    hide Pass, Grown;
    PassBounds(m, order, len);
    var p, n, len' := Pass(m, order), |order|, Grown(len, |order|);
    if retry + 1 < limit {
      var k := PassesLeft(retry + 1, limit);
      assert n * PassesLeft(retry, limit) == n + n * k;
      GrownTwice(len, n, n * k);
      if p.changed > 0 {
        PassesBounds(p.entries, order, retry + 1, limit, len');
      } else {
        GrownGrows(len', n * k);
      }
    }
  }

  /** Work and size of a whole call, for every map: the keys stay the same, at most MAX_REPLACEMENTS
      replacements are made per entry and pass, and no value grows by more than a factor
      1 + MAX_REPLACEMENTS per entry walked. */
  lemma ExpansionIsBounded(m: map<string, string>, order: seq<string>, limit: nat, len: nat)
    requires Enumerates(order, m) && NoLongerThan(m, len)
    ensures var r, n := ExpandAll(m, order, limit), |m| * PassesLeft(0, limit);
            && r.entries.Keys == m.Keys
            && r.replacements <= MAX_REPLACEMENTS * n
            && NoLongerThan(r.entries, Grown(len, n))
  {
    hide Passes, Grown, NoLongerThan, Enumerates;
    WalkLength(order, m);
    OrderKeys(order, m);
    PassesBounds(m, order, 0, limit, len);
  }

  lemma OrderKeys(order: seq<string>, m: map<string, string>)
    requires Enumerates(order, m)
    ensures forall key :: key in order ==> key in m
  {
  }
}
