/** The configuration dictionary: a map from names to values that is walked in ascending key order,
    as std::map does. */
module ConfigurationMap {

  /** Lexicographic order of names. */
  predicate Before(a: string, b: string) {
    b != "" && (a == "" || a[0] < b[0] || (a[0] == b[0] && Before(a[1..], b[1..])))
  }

  lemma {:induction false} BeforeIsTransitive(a: string, b: string, c: string)
    requires Before(a, b) && Before(b, c)
    ensures Before(a, c)
  {
    if a != "" && a[0] == b[0] == c[0] {
      BeforeIsTransitive(a[1..], b[1..], c[1..]);
    }
  }

  lemma {:induction false} BeforeIsTotal(a: string, b: string)
    ensures a == b || Before(a, b) || Before(b, a)
    ensures !(Before(a, b) && Before(b, a)) && !Before(a, a)
  {
    if a != "" && b != "" && a[0] == b[0] {
      BeforeIsTotal(a[1..], b[1..]);
      assert a == [a[0]] + a[1..] && b == [b[0]] + b[1..];
    }
    if a != "" {
      BeforeIsTotal(a[1..], a[1..]);
    }
  }

  /** The texts agree in front of `n`, where `a` ends or has the smaller character. */
  ghost predicate FirstLess(a: string, b: string, n: nat) {
    n <= |a| && n < |b| && (forall j :: 0 <= j < n ==> a[j] == b[j]) && (n == |a| || a[n] < b[n])
  }

  lemma FirstLessShift(a: string, b: string, n: nat)
    requires a != "" && b != ""
    ensures FirstLess(a, b, n + 1) <==> a[0] == b[0] && FirstLess(a[1..], b[1..], n)
    ensures FirstLess(a, b, 0) <==> a[0] < b[0]
  {
    if a[0] == b[0] && FirstLess(a[1..], b[1..], n) {
      assert forall j :: 0 < j < n + 1 ==> a[j] == a[1..][j - 1] && b[j] == b[1..][j - 1];
    }
    if FirstLess(a, b, n + 1) {
      assert forall j :: 0 <= j < n ==> a[1..][j] == a[j + 1] && b[1..][j] == b[j + 1];
    }
  }

  /** The order told by positions: the first difference decides, and a text comes behind its beginnings. */
  lemma {:induction false} BeforeIff(a: string, b: string)
    ensures Before(a, b) <==> exists n: nat :: FirstLess(a, b, n)
    decreases |a|
  {
    if a != "" && b != "" {
      BeforeIff(a[1..], b[1..]);
      FirstLessShift(a, b, 0);
      hide FirstLess;
      if Before(a, b) {
        if a[0] < b[0] {
          assert FirstLess(a, b, 0);
        } else {
          var n: nat :| FirstLess(a[1..], b[1..], n);
          FirstLessShift(a, b, n);
        }
      }
      if n: nat :| FirstLess(a, b, n) && n > 0 {
        FirstLessShift(a, b, n - 1);
      }
    } else if b != "" {
      assert FirstLess(a, b, 0);
    }
  }

  predicate Ascending(order: seq<string>) {
    forall i, j :: 0 <= i < j < |order| ==> Before(order[i], order[j])
  }

  /** `order` lists every key of `m` exactly once. */
  ghost predicate Enumerates(order: seq<string>, m: map<string, string>) {
    && (forall key :: key in order <==> key in m)
    && (forall i, j :: 0 <= i < j < |order| ==> order[i] != order[j])
  }

  /** A walk over a map has as many stops as the map has entries. */
  lemma {:induction false} WalkLength(order: seq<string>, m: map<string, string>)
    requires Enumerates(order, m)
    ensures |order| == |m|
  {
    if order == [] {
      assert m.Keys == {};
    } else {
      var m' := m - {order[0]};
      assert Enumerates(order[1..], m') by {
        assert forall key :: key in order[1..] <==> key in order && key != order[0];
      }
      WalkLength(order[1..], m');
      assert m.Keys == m'.Keys + {order[0]};
      assert |m.Keys| == |m'.Keys| + 1;
    }
  }

  /** A new key behind all smaller ones and in front of a greater one keeps the walk in order. */
  lemma InsertedInPlace(order: seq<string>, m: map<string, string>, i: nat, key: string, value: string)
    requires Enumerates(order, m) && Ascending(order) && key !in m && i <= |order|
    requires (forall j :: 0 <= j < i ==> Before(order[j], key)) && (i < |order| ==> !Before(order[i], key))
    ensures var order' := order[..i] + [key] + order[i..]; Enumerates(order', m[key := value]) && Ascending(order')
  {
    var order' := order[..i] + [key] + order[i..];
    forall j | i <= j < |order| ensures Before(key, order[j]) {
      BeforeIsTotal(key, order[i]);
      if i < j {
        BeforeIsTransitive(key, order[i], order[j]);
      }
    }
    hide Before;
    assert forall k :: k in order' <==> k == key || k in order[..i] || k in order[i..];
    assert forall k :: k in order <==> k in order[..i] || k in order[i..] by {
      assert order == order[..i] + order[i..];
    }
    assert Ascending(order');
    forall a, b | 0 <= a < b < |order'| ensures order'[a] != order'[b] {
      BeforeIsTotal(order'[a], order'[b]);
    }
  }

  class CfgMap {
    var entries: map<string, string>
    var order: seq<string>

    ghost predicate Valid()
      reads this
    {
      Enumerates(order, entries) && Ascending(order)
    }

    constructor ()
      ensures Valid() && entries == map[]
    {
      entries := map[];
      order := [];
    }

    /** Adds the entry unless the key is there already; says whether it was added. */
    method Insert(key: string, value: string) returns (inserted: bool)
      requires Valid()
      modifies this
      ensures Valid()
      ensures inserted == (key !in old(entries))
      ensures entries == if inserted then old(entries)[key := value] else old(entries)
    {
      inserted := key !in entries;
      if inserted {
        var i := 0;
        while i < |order| && Before(order[i], key)
          invariant i <= |order|
          invariant forall j :: 0 <= j < i ==> Before(order[j], key)
        {
          i := i + 1;
        }
        InsertedInPlace(order, entries, i, key, value);
        entries := entries[key := value];
        order := order[..i] + [key] + order[i..];
      }
    }
  }
}
