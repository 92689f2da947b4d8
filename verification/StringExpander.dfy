/** The configuration macro expander: %KEY% in a value is replaced by the value of KEY, using the map
    that is being expanded as the dictionary. The functions describe one scan of one value, one pass
    over the map, and the repeated passes; the class does the same work in place. */
module StringExpander {
  import opened Options
  import opened Text
  import opened Templates
  import opened ConfigurationMap

  /** Replacements in one call of ExpandString. */
  const MAX_REPLACEMENTS: nat := 10

  /** What stands at the next meta character. */
  datatype Look = Exhausted | Hit(b: nat, e: nat, key: string) | Unknown(b: nat, e: nat) | Malformed(b: nat, e: nat)

  function LookAt(x: string, m: map<string, string>, pos: nat): (look: Look)
    requires pos < |x|
    ensures !look.Exhausted? ==> pos <= look.b && look.b + 2 <= look.e < |x|
    ensures look.Hit? ==> look.key in m
  {
    var b := Find(x, META, pos);
    if b + 2 < |x| then
      var e := Find(x, META, b + 2);
      if e < |x| then
        var key := x[b + 1..e];
        if AllKeyChars(key) then
          if key in m then Hit(b, e, key) else Unknown(b, e)
        else Malformed(b, e)
      else Exhausted
    else Exhausted
  }

  /** Every character strictly between two positions can stand in a key. */
  predicate KeyBetween(x: string, b: nat, e: nat)
    requires e <= |x|
  {
    forall j :: b < j < e ==> IsKeyChar(x[j])
  }

  /** What is found, told by positions for any text: `b` is the first meta character from `pos` on, `e` the
      first one from `b + 2` on, and what stands between them decides. */
  lemma LookAtByPositions(x: string, m: map<string, string>, pos: nat, b: nat, e: nat)
    requires pos < |x| && IsFirst(x, '%', pos, b) && b + 2 < |x| && IsFirst(x, '%', b + 2, e) && e < |x|
    ensures LookAt(x, m, pos) ==
            if !KeyBetween(x, b, e) then Malformed(b, e)
            else if x[b + 1..e] in m then Hit(b, e, x[b + 1..e])
            else Unknown(b, e)
  {
    FindIsUnique(x, META, pos, b);
    FindIsUnique(x, META, b + 2, e);
    var key := x[b + 1..e];
    assert forall j :: b < j < e ==> x[j] == key[j - b - 1];
    assert forall j :: 0 <= j < |key| ==> key[j] == x[j + b + 1];
  }

  /** Nothing is found exactly when there is no such `b` or no such `e`. */
  lemma ExhaustedIff(x: string, m: map<string, string>, pos: nat)
    requires pos < |x|
    ensures LookAt(x, m, pos).Exhausted? <==>
            forall b: nat :: IsFirst(x, '%', pos, b) ==> b + 2 >= |x| || forall j :: b + 2 <= j < |x| ==> x[j] != '%'
  {
    var b := Find(x, META, pos);
    FindIsFirst(x, META, pos);
    if b + 2 < |x| {
      FindIsFirst(x, META, b + 2);
    }
  }

  datatype ScanResult = ScanResult(text: string, replacements: nat, missed: nat) {
    function Plus(more: nat): ScanResult {
      ScanResult(text, replacements, missed + more)
    }
  }

  /** `x` with the reference between the meta characters at `b` and `e` replaced by `value`. */
  function Splice(x: string, b: nat, e: nat, value: string): (r: string)
    requires b <= e < |x|
    ensures b <= |r|
  {
    x[..b] + value + x[e + 1..]
  }

  /** The scan of `x` from `pos` on, after `done` replacements. */
  function Scan(x: string, m: map<string, string>, pos: nat, done: nat): (r: ScanResult)
    requires pos <= |x| && done <= MAX_REPLACEMENTS
    ensures done <= r.replacements <= MAX_REPLACEMENTS
    ensures r.replacements == done ==> r.text == x
    decreases MAX_REPLACEMENTS - done, |x| - pos
  {
    if pos == |x| || done == MAX_REPLACEMENTS then ScanResult(x, done, 0)
    else
      match LookAt(x, m, pos)
      case Exhausted => ScanResult(x, done, 0)
      case Hit(b, e, key) => Scan(Splice(x, b, e, m[key]), m, b, done + 1)
      case Unknown(_, e) => Scan(x, m, e + 1, done).Plus(1)
      case Malformed(_, e) => Scan(x, m, e, done)
  }

  /** The state of a scan after one turn of its loop: text, position, replacements made, references
      missed. None when there is nothing left to look at. */
  function Turn(x: string, m: map<string, string>, pos: nat, done: nat, missed: nat): Option<(string, nat, nat, nat)>
    requires pos < |x|
  {
    match LookAt(x, m, pos)
    case Exhausted => None
    case Hit(b, e, key) => Some((Splice(x, b, e, m[key]), b, done + 1, missed))
    case Unknown(_, e) => Some((x, e + 1, done, missed + 1))
    case Malformed(_, e) => Some((x, e, done, missed))
  }

  /** One turn of the loop does not change what the whole scan gives. */
  lemma ScanTurn(whole: ScanResult, x: string, m: map<string, string>, pos: nat, done: nat, missed: nat)
    requires pos < |x| && done < MAX_REPLACEMENTS
    requires whole == Scan(x, m, pos, done).Plus(missed)
    ensures match Turn(x, m, pos, done, missed)
            case None => whole == ScanResult(x, done, missed)
            case Some((x', pos', done', missed')) => 
              pos' <= |x'| && done' <= MAX_REPLACEMENTS && whole == Scan(x', m, pos', done').Plus(missed')
  {
    hide LookAt, Splice;
  }

  lemma ScanEnd(x: string, m: map<string, string>, pos: nat, done: nat)
    requires pos <= |x| && done <= MAX_REPLACEMENTS && (pos == |x| || done == MAX_REPLACEMENTS)
    ensures Scan(x, m, pos, done) == ScanResult(x, done, 0)
  {
  }

  /** The scan of any text, told by positions: what it does about the two meta characters it looks at and the
      text between them. */
  lemma ScanByPositions(x: string, m: map<string, string>, pos: nat, done: nat, b: nat, e: nat)
    requires pos < |x| && done < MAX_REPLACEMENTS
    requires IsFirst(x, '%', pos, b) && b + 2 < |x| && IsFirst(x, '%', b + 2, e) && e < |x|
    ensures !KeyBetween(x, b, e) ==> Scan(x, m, pos, done) == Scan(x, m, e, done)
    ensures KeyBetween(x, b, e) && x[b + 1..e] in m ==>
              Scan(x, m, pos, done) == Scan(x[..b] + m[x[b + 1..e]] + x[e + 1..], m, b, done + 1)
    ensures KeyBetween(x, b, e) && x[b + 1..e] !in m ==>
              var rest := Scan(x, m, e + 1, done);
              Scan(x, m, pos, done) == ScanResult(rest.text, rest.replacements, rest.missed + 1)
  {
    hide Scan, LookAt, KeyBetween, IsFirst;
    LookAtByPositions(x, m, pos, b, e);
    ScanTurn(Scan(x, m, pos, done), x, m, pos, done, 0);
  }

  /** The scan ends where nothing is found, and after MAX_REPLACEMENTS replacements. */
  lemma ScanStops(x: string, m: map<string, string>, pos: nat, done: nat)
    requires pos <= |x| && done <= MAX_REPLACEMENTS
    requires done == MAX_REPLACEMENTS ||
             forall b: nat :: IsFirst(x, '%', pos, b) ==> b + 2 >= |x| || forall j :: b + 2 <= j < |x| ==> x[j] != '%'
    ensures Scan(x, m, pos, done) == ScanResult(x, done, 0)
  {
    if pos < |x| {
      ExhaustedIff(x, m, pos);
    }
  }

  /** The expansion of the value of one key. */
  function ScanEntry(m: map<string, string>, key: string): ScanResult
    requires key in m
  {
    Scan(m[key], m, 0, 0)
  }

  datatype PassResult = PassResult(entries: map<string, string>, changed: nat, missing: nat, replacements: nat) {
    /** The result with the counts of the scan of one more entry. */
    function Plus(s: ScanResult): PassResult {
      PassResult(entries, if s.replacements > 0 then changed + 1 else changed,
                 if s.missed > 0 then missing + 1 else missing, replacements + s.replacements)
    }
  }

  /** One pass over the keys in `order`; later keys are expanded with the values written for earlier
      ones. */
  function Pass(m: map<string, string>, order: seq<string>): (r: PassResult)
    requires forall key :: key in order ==> key in m
    ensures r.entries.Keys == m.Keys
    ensures r.changed == 0 ==> r.entries == m
  {
    if order == [] then PassResult(m, 0, 0, 0)
    else
      var s := ScanEntry(m, order[0]);
      Pass(m[order[0] := s.text], order[1..]).Plus(s)
  }

  /** One turn of the pass. */
  lemma PassTurn(m: map<string, string>, order: seq<string>, rest: seq<string>)
    requires forall key :: key in order ==> key in m
    requires order != [] && rest == order[1..]
    ensures Pass(m, order) == Pass(m[order[0] := ScanEntry(m, order[0]).text], rest).Plus(ScanEntry(m, order[0]))
  {
  }

  lemma PassEnd(m: map<string, string>, order: seq<string>)
    requires order == []
    ensures Pass(m, order) == PassResult(m, 0, 0, 0)
  {
  }

  /** Passes until nothing changes or the limit is reached; at least one pass is made. `changed` and
      `missing` are those of the last pass, `replacements` is the total. */
  function Passes(m: map<string, string>, order: seq<string>, retry: nat, limit: nat): (r: PassResult)
    requires forall key :: key in order ==> key in m
    ensures r.entries.Keys == m.Keys
    decreases limit - retry
  {
    var p := Pass(m, order);
    if p.changed > 0 && retry + 1 < limit then
      var r := Passes(p.entries, order, retry + 1, limit);
      r.(replacements := p.replacements + r.replacements)
    else p
  }

  /** The whole of ExpandMap. */
  function ExpandAll(m: map<string, string>, order: seq<string>, limit: nat): PassResult
    requires Enumerates(order, m)
  {
    Passes(m, order, 0, limit)
  }

  lemma {:induction false} PassLeavesOthers(m: map<string, string>, order: seq<string>, key: string)
    requires (forall k :: k in order ==> k in m) && key in m && key !in order
    ensures Pass(m, order).entries[key] == m[key]
    decreases order
  {
    hide ScanEntry;
    if order != [] {
      PassLeavesOthers(m[order[0] := ScanEntry(m, order[0]).text], order[1..], key);
    }
  }

  /** The map as the pass finds it when it comes to its `i`-th key: the keys before have their new values
      already. */
  function FoundBy(m: map<string, string>, order: seq<string>, i: nat, result: map<string, string>): map<string, string>
    requires i <= |order| && result.Keys == m.Keys
  {
    map key | key in m :: if key in order[..i] then result[key] else m[key]
  }

  /** The scan of the `i`-th key. */
  function TurnOf(m: map<string, string>, order: seq<string>, i: nat, result: map<string, string>): ScanResult
    requires i < |order| && order[i] in m && result.Keys == m.Keys
  {
    Scan(m[order[i]], FoundBy(m, order, i, result), 0, 0)
  }

  /** A pass works in place, told by its result: the new value of a key is its old one scanned with the new
      values of the keys before it and the old values of all others, its own included. It changes
      something, or misses a reference, exactly when one of these scans does. */
  lemma {:induction false} PassInPlace(m: map<string, string>, order: seq<string>)
    requires (forall k :: k in order ==> k in m) && forall i, j :: 0 <= i < j < |order| ==> order[i] != order[j]
    ensures var p := Pass(m, order);
            && (forall i :: 0 <= i < |order| ==> p.entries[order[i]] == TurnOf(m, order, i, p.entries).text)
            && (p.changed == 0 <==> forall i :: 0 <= i < |order| ==> TurnOf(m, order, i, p.entries).replacements == 0)
            && (p.missing == 0 <==> forall i :: 0 <= i < |order| ==> TurnOf(m, order, i, p.entries).missed == 0)
    decreases order
  {
    hide TurnOf, ScanEntry;
    if order != [] {
      var first, rest := order[0], order[1..];
      var m' := m[first := ScanEntry(m, first).text];
      var p, p' := Pass(m, order), Pass(m', rest);
      PassInPlace(m', rest);
      PassLeavesOthers(m', rest, first);
      PassTurn(m, order, rest);
      FirstTurn(m, order, p.entries);
      hide Pass;
      forall i | 0 < i < |order| ensures TurnOf(m, order, i, p.entries) == TurnOf(m', rest, i - 1, p.entries) {
        RestTurn(m, order, i, p.entries, m', rest);
      }
      assert forall i :: 0 <= i < |rest| ==> rest[i] == order[i + 1];
      assert forall i :: 0 <= i < |rest| ==> TurnOf(m, order, i + 1, p.entries) == TurnOf(m', rest, i, p.entries);
    }
  }

  lemma FirstTurn(m: map<string, string>, order: seq<string>, result: map<string, string>)
    requires order != [] && order[0] in m && result.Keys == m.Keys
    ensures TurnOf(m, order, 0, result) == ScanEntry(m, order[0])
  {
    assert FoundBy(m, order, 0, result) == m;
  }

  lemma RestTurn(
    m: map<string, string>, order: seq<string>, i: nat, result: map<string, string>, m': map<string, string>,
    rest: seq<string>)
    requires 0 < i < |order| && result.Keys == m.Keys && order[0] in m && order[i] in m && rest == order[1..]
    requires m' == m[order[0] := result[order[0]]] && order[0] !in rest
    ensures TurnOf(m, order, i, result) == TurnOf(m', rest, i - 1, result)
  {
    hide Scan;
    assert order[..i] == [order[0]] + rest[..i - 1];
    assert FoundBy(m, order, i, result) == FoundBy(m', rest, i - 1, result);
  }

  /** Passes are made until nothing changes or the limit is reached. */
  lemma PassesTurn(m: map<string, string>, order: seq<string>, retry: nat, limit: nat)
    requires forall key :: key in order ==> key in m
    ensures var r, p := Passes(m, order, retry, limit), Pass(m, order);
            if p.changed > 0 && retry + 1 < limit then
              var rest := Passes(p.entries, order, retry + 1, limit);
              r.entries == rest.entries && r.missing == rest.missing && r.changed == rest.changed
            else r == p
  {
    hide Pass;
  }

  class StringExpander {
    const maxExpandCount: nat

    constructor (maxExpandCount: nat := 10)
      ensures this.maxExpandCount == maxExpandCount
    {
      this.maxExpandCount := maxExpandCount;
    }

    method IsValidKey(key: string) returns (valid: bool)
      ensures valid == AllKeyChars(key)
    {
      valid := true;
      var j := 0;
      while j < |key| && valid
        invariant j <= |key|
        invariant valid == AllKeyChars(key[..j])
      {
        valid := IsKeyChar(key[j]);
        assert key[..j + 1] == key[..j] + [key[j]];
        j := j + 1;
      }
      assert key[..|key|] == key;
    }

    /** Looks for the next reference of `x` at or after `pos`. */
    method Search(x: string, m: map<string, string>, pos: nat) returns (look: Look)
      requires pos < |x|
      ensures look == LookAt(x, m, pos)
    {
      var n := |x|;
      var b := Find(x, META, pos);
      if b < n && b + 2 < n {
        var e := Find(x, META, b + 2);
        if e < n {
          var key := x[b + 1..e];
          var validKey := IsValidKey(key);
          if validKey {
            return if key in m then Hit(b, e, key) else Unknown(b, e);
          }
          return Malformed(b, e);
        }
      }
      return Exhausted;
    }

    /** Expands `text` with the values of `m`. It ends for every map, cyclic ones included. */
    method ExpandString(text: string, m: map<string, string>) returns (x: string, missed: nat, changed: bool)
      ensures var r := Scan(text, m, 0, 0);
              x == r.text && missed == r.missed && (changed <==> r.replacements > 0)
    {
      hide Scan, LookAt, Splice;
      ghost var whole := Scan(text, m, 0, 0);
      changed, missed, x := false, 0, text;
      var n, pos, replacementCounter := |x|, 0, 0;
      while pos < n && replacementCounter < MAX_REPLACEMENTS
        invariant n == |x| && 0 <= pos <= n && replacementCounter <= MAX_REPLACEMENTS
        invariant changed <==> replacementCounter > 0
        invariant whole == Scan(x, m, pos, replacementCounter).Plus(missed)
        decreases MAX_REPLACEMENTS - replacementCounter, n - pos
      {
        var look := Search(x, m, pos);
        ScanTurn(whole, x, m, pos, replacementCounter, missed);
        match look
        case Hit(b, e, key) =>
          x := Splice(x, b, e, m[key]);
          pos, n := b, |x|;
          replacementCounter := replacementCounter + 1;
          changed := true;
        case Unknown(_, e) =>
          missed := missed + 1;
          pos := e + 1;
        case Malformed(_, e) =>
          pos := e;
        case Exhausted =>
          return;
      }
      ScanEnd(x, m, pos, replacementCounter);
    }

    /** Expands the value of one key; what has changed is written back. */
    method ExpandEntry(m: CfgMap, key: string) returns (changed: bool, missed: nat)
      requires key in m.entries
      modifies m`entries
      ensures var s := ScanEntry(old(m.entries), key);
              m.entries == old(m.entries)[key := s.text] && missed == s.missed && (changed <==> s.replacements > 0)
    {
      hide Scan;
      var x;
      x, missed, changed := ExpandString(m.entries[key], m.entries);
      if changed {
        m.entries := m.entries[key := x];
      }
    }

    /** One pass of ExpandMap. */
    method ExpandOnce(m: CfgMap) returns (changeCount: nat, notExpanded: nat)
      requires m.Valid()
      modifies m`entries
      ensures m.Valid()
      ensures m.entries == Pass(old(m.entries), m.order).entries
      ensures changeCount == Pass(old(m.entries), m.order).changed
      ensures notExpanded == Pass(old(m.entries), m.order).missing
    {
      hide Pass, ScanEntry, Ascending;
      notExpanded, changeCount := 0, 0;
      ghost var whole := Pass(m.entries, m.order);
      assert m.order[0..] == m.order;
      var i := 0;
      while i < |m.order|
        invariant i <= |m.order|
        invariant m.entries.Keys == old(m.entries.Keys)
        invariant whole.entries == Pass(m.entries, m.order[i..]).entries
        invariant whole.changed == changeCount + Pass(m.entries, m.order[i..]).changed
        invariant whole.missing == notExpanded + Pass(m.entries, m.order[i..]).missing
      {
        var key := m.order[i];
        PassTurn(m.entries, m.order[i..], m.order[i + 1..]);
        var changed, missedMapping := ExpandEntry(m, key);
        if changed {
          changeCount := changeCount + 1;
        }
        if missedMapping > 0 {
          notExpanded := notExpanded + 1;
        }
        i := i + 1;
      }
      PassEnd(m.entries, m.order[i..]);
    }

    /** Expands every value of `m` in place, with `m` itself as the dictionary. */
    method ExpandMap(m: CfgMap) returns (notExpanded: nat)
      requires m.Valid()
      modifies m`entries
      ensures m.Valid()
      ensures var r := ExpandAll(old(m.entries), m.order, maxExpandCount);
              m.entries == r.entries && notExpanded == r.missing
    {
      hide Pass, Passes, Ascending;
      var retryCount := 0;
      ghost var whole := ExpandAll(m.entries, m.order, maxExpandCount);
      var changeCount;
      PassesTurn(m.entries, m.order, 0, maxExpandCount);
      changeCount, notExpanded := ExpandOnce(m);
      retryCount := retryCount + 1;
      while changeCount > 0 && retryCount < maxExpandCount
        invariant m.Valid()
        invariant if changeCount > 0 && retryCount < maxExpandCount then
                    var r := Passes(m.entries, m.order, retryCount, maxExpandCount);
                    whole.entries == r.entries && whole.missing == r.missing
                  else whole.entries == m.entries && whole.missing == notExpanded
        decreases maxExpandCount - retryCount
      {
        PassesTurn(m.entries, m.order, retryCount, maxExpandCount);
        changeCount, notExpanded := ExpandOnce(m);
        retryCount := retryCount + 1;
      }
    }
  }
}
