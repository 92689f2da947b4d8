/** PDHbvSnowValuesMsg::compareTo: field by field and then value by value. It is shown to be the
    lexicographic order of the list of fields, and that to be a total order. Texts are the parts in front
    of the terminators, doubles are reals. */
module SnowValues {
  import opened ConfigurationMap

  datatype Snow = Snow(tag: int, tagType: int, clientData: int, stateDate: string, padding3: string, stateVersion: int,
    noElevations: int, period: int, text: string, padding7: string, numValues: int, padding8: string, values: seq<real>)

  /** The array has room for the values it is said to hold. */
  predicate Valid(s: Snow) {
    s.numValues <= |s.values|
  }

  /** A field in the order of comparison. */
  datatype Key = Number(n: int) | Text(s: string) | Value(r: real)

  /** The values in use. */
  function Used(s: Snow): seq<real>
    requires Valid(s)
  {
    if s.numValues > 0 then s.values[..s.numValues] else []
  }

  const FIELDS: nat := 12

  function FieldKeys(s: Snow): (keys: seq<Key>)
    ensures |keys| == FIELDS
  {
    [Number(s.tag), Number(s.tagType), Number(s.clientData), Text(s.stateDate), Text(s.padding3),
     Number(s.stateVersion), Number(s.noElevations), Number(s.period), Text(s.text), Text(s.padding7),
     Number(s.numValues), Text(s.padding8)]
  }

  function Values(values: seq<real>): (keys: seq<Key>)
    ensures |keys| == |values| && forall i :: 0 <= i < |values| ==> keys[i] == Value(values[i])
  {
    seq(|values|, i requires 0 <= i < |values| => Value(values[i]))
  }

  /** Everything that is compared. */
  function Keys(s: Snow): seq<Key>
    requires Valid(s)
  {
    FieldKeys(s) + Values(Used(s))
  }

  /** One key against another; keys of different kinds never meet in a comparison. */
  predicate KeyBefore(a: Key, b: Key) {
    match (a, b)
    case (Number(m), Number(n)) => m < n
    case (Text(s), Text(t)) => Before(s, t)
    case (Value(q), Value(r)) => q < r
    case (Number(_), _) => true
    case (Text(_), Value(_)) => true
    case _ => false
  }

  function KeyCompare(a: Key, b: Key): int {
    if a == b then 0 else if KeyBefore(b, a) then 1 else -1
  }

  /** The lexicographic order. */
  function Compare(a: seq<Key>, b: seq<Key>): int {
    if a == [] then (if b == [] then 0 else -1)
    else if b == [] then 1
    else if a[0] != b[0] then KeyCompare(a[0], b[0])
    else Compare(a[1..], b[1..])
  }

  /** The first difference decides. */
  lemma {:induction false} FirstDifference(a: seq<Key>, b: seq<Key>, i: nat)
    requires i < |a| && i < |b| && a[i] != b[i] && forall j :: 0 <= j < i ==> a[j] == b[j]
    ensures Compare(a, b) == KeyCompare(a[i], b[i])
  {
    if i > 0 {
      FirstDifference(a[1..], b[1..], i - 1);
    }
  }

  lemma {:induction false} ZeroIffEqual(a: seq<Key>, b: seq<Key>)
    ensures Compare(a, b) == 0 <==> a == b
  {
    if a != [] && b != [] {
      ZeroIffEqual(a[1..], b[1..]);
      assert a == [a[0]] + a[1..] && b == [b[0]] + b[1..];
    }
  }

  lemma KeysAreOrdered(a: Key, b: Key)
    ensures a == b || KeyBefore(a, b) || KeyBefore(b, a)
    ensures !(KeyBefore(a, b) && KeyBefore(b, a)) && !KeyBefore(a, a)
  {
    if a.Text? {
      BeforeIsTotal(a.s, a.s);
      if b.Text? {
        BeforeIsTotal(a.s, b.s);
      }
    }
  }

  lemma KeysAreTransitive(a: Key, b: Key, c: Key)
    requires KeyBefore(a, b) && KeyBefore(b, c)
    ensures KeyBefore(a, c)
  {
    if a.Text? && b.Text? && c.Text? {
      BeforeIsTransitive(a.s, b.s, c.s);
    }
  }

  lemma {:induction false} CompareIsAntisymmetric(a: seq<Key>, b: seq<Key>)
    ensures Compare(a, b) == -Compare(b, a)
  {
    if a != [] && b != [] {
      if a[0] == b[0] {
        CompareIsAntisymmetric(a[1..], b[1..]);
      } else {
        KeysAreOrdered(a[0], b[0]);
      }
    }
  }

  lemma {:induction false} CompareIsTransitive(a: seq<Key>, b: seq<Key>, c: seq<Key>)
    requires Compare(a, b) <= 0 && Compare(b, c) <= 0
    ensures Compare(a, c) <= 0
  {
    if a != [] && b != [] && c != [] {
      KeysAreOrdered(a[0], b[0]);
      KeysAreOrdered(b[0], c[0]);
      KeysAreOrdered(a[0], c[0]);
      if a[0] == b[0] == c[0] {
        CompareIsTransitive(a[1..], b[1..], c[1..]);
      } else if a[0] != b[0] && b[0] != c[0] {
        KeysAreTransitive(a[0], b[0], c[0]);
      }
    }
  }

  method CompareNumber(a: int, b: int) returns (r: int)
    ensures r == KeyCompare(Number(a), Number(b))
  {
    r := if a != b then (if a > b then 1 else -1) else 0;
  }

  method CompareText(a: string, b: string) returns (r: int)
    ensures r == KeyCompare(Text(a), Text(b))
  {
    r := if a != b then (if Before(b, a) then 1 else -1) else 0;
  }

  class PDHbvSnowValuesMsg {
    var snowValues: Snow

    constructor (s: Snow)
      ensures snowValues == s
    {
      snowValues := s;
    }

    /** The comparison of the fields, one after the other. */
    method CompareFields(a: Snow, b: Snow) returns (r: int)
      ensures r == 0 ==> FieldKeys(a) == FieldKeys(b)
      ensures r != 0 ==> exists i :: 0 <= i < FIELDS && FieldKeys(a)[i] != FieldKeys(b)[i] &&
                           FieldKeys(a)[..i] == FieldKeys(b)[..i] && r == KeyCompare(FieldKeys(a)[i], FieldKeys(b)[i])
    {
      ghost var ka, kb := FieldKeys(a), FieldKeys(b);
      r := CompareNumber(a.tag, b.tag);
      if r != 0 { assert ka[0] != kb[0]; return; }
      r := CompareNumber(a.tagType, b.tagType);
      if r != 0 { assert ka[1] != kb[1]; return; }
      r := CompareNumber(a.clientData, b.clientData);
      if r != 0 { assert ka[2] != kb[2]; return; }
      r := CompareText(a.stateDate, b.stateDate);
      if r != 0 { assert ka[3] != kb[3]; return; }
      r := CompareText(a.padding3, b.padding3);
      if r != 0 { assert ka[4] != kb[4]; return; }
      r := CompareNumber(a.stateVersion, b.stateVersion);
      if r != 0 { assert ka[5] != kb[5]; return; }
      r := CompareNumber(a.noElevations, b.noElevations);
      if r != 0 { assert ka[6] != kb[6]; return; }
      r := CompareNumber(a.period, b.period);
      if r != 0 { assert ka[7] != kb[7]; return; }
      r := CompareText(a.text, b.text);
      if r != 0 { assert ka[8] != kb[8]; return; }
      r := CompareText(a.padding7, b.padding7);
      if r != 0 { assert ka[9] != kb[9]; return; }
      r := CompareNumber(a.numValues, b.numValues);
      if r != 0 { assert ka[10] != kb[10]; return; }
      r := CompareText(a.padding8, b.padding8);
      if r != 0 { assert ka[11] != kb[11]; return; }
    }

    method CompareTo(msg: PDHbvSnowValuesMsg) returns (r: int)
      requires Valid(snowValues) && Valid(msg.snowValues)
      ensures r == Compare(Keys(snowValues), Keys(msg.snowValues))
    {
      var a, b := snowValues, msg.snowValues;
      ghost var ka, kb := Keys(a), Keys(b);
      hide Compare, KeyCompare, FieldKeys;
      r := CompareFields(a, b);
      if r != 0 {
        ghost var i :| 0 <= i < FIELDS && FieldKeys(a)[i] != FieldKeys(b)[i] &&
                       FieldKeys(a)[..i] == FieldKeys(b)[..i] && r == KeyCompare(FieldKeys(a)[i], FieldKeys(b)[i]);
        forall j | 0 <= j < i ensures ka[j] == kb[j] {
          assert FieldKeys(a)[j] == FieldKeys(a)[..i][j] == FieldKeys(b)[j];
        }
        FirstDifference(ka, kb, i);
        return;
      }
      SameCount(a, b);
      if a.numValues > 0 {
        var j := 0;
        while j < a.numValues
          invariant 0 <= j <= a.numValues
          invariant forall k :: 0 <= k < j ==> a.values[k] == b.values[k]
        {
          if a.values[j] != b.values[j] {
            r := if a.values[j] > b.values[j] then 1 else -1;
            assert r == KeyCompare(Value(a.values[j]), Value(b.values[j])) by {
              RealCompare(a.values[j], b.values[j]);
            }
            assert forall k :: FIELDS <= k < FIELDS + j ==> ka[k] == kb[k];
            FirstDifference(ka, kb, FIELDS + j);
            return;
          }
          j := j + 1;
        }
        assert Used(a) == Used(b);
      }
      ZeroIffEqual(ka, kb);
      r := 0;
    }
  }

  lemma SameCount(a: Snow, b: Snow)
    requires FieldKeys(a) == FieldKeys(b)
    ensures a.numValues == b.numValues
  {
    assert FieldKeys(a)[10] == FieldKeys(b)[10];
  }

  lemma RealCompare(a: real, b: real)
    requires a != b
    ensures KeyCompare(Value(a), Value(b)) == if a > b then 1 else -1
  {
  }

  function Sign(before: bool, after: bool): int {
    if after then 1 else if before then -1 else 0
  }

  function CompareInts(a: int, b: int): int {
    Sign(a < b, a > b)
  }

  function CompareTexts(a: string, b: string): int {
    Sign(Before(a, b), Before(b, a))
  }

  /** The results of comparing the fields by themselves, in the order of comparison. */
  function FieldResults(a: Snow, b: Snow): (results: seq<int>)
    ensures |results| == FIELDS
  {
    [CompareInts(a.tag, b.tag), CompareInts(a.tagType, b.tagType), CompareInts(a.clientData, b.clientData),
     CompareTexts(a.stateDate, b.stateDate), CompareTexts(a.padding3, b.padding3),
     CompareInts(a.stateVersion, b.stateVersion), CompareInts(a.noElevations, b.noElevations),
     CompareInts(a.period, b.period), CompareTexts(a.text, b.text), CompareTexts(a.padding7, b.padding7),
     CompareInts(a.numValues, b.numValues), CompareTexts(a.padding8, b.padding8)]
  }

  lemma NumberResult(a: int, b: int)
    ensures KeyCompare(Number(a), Number(b)) == CompareInts(a, b)
    ensures CompareInts(a, b) == 0 <==> Number(a) == Number(b)
  {
  }

  lemma TextResult(a: string, b: string)
    ensures KeyCompare(Text(a), Text(b)) == CompareTexts(a, b)
    ensures CompareTexts(a, b) == 0 <==> Text(a) == Text(b)
  {
    BeforeIsTotal(a, b);
    BeforeIsTotal(a, a);
  }

  /** One field decides: the result is the sign of its comparison, upwards. */
  lemma KeyResults(a: Snow, b: Snow, i: nat)
    requires i < FIELDS
    ensures KeyCompare(FieldKeys(a)[i], FieldKeys(b)[i]) == FieldResults(a, b)[i]
    ensures FieldResults(a, b)[i] == 0 <==> FieldKeys(a)[i] == FieldKeys(b)[i]
  {
    hide KeyCompare, CompareInts, CompareTexts;
    match i {
      case 0 => NumberResult(a.tag, b.tag);
      case 1 => NumberResult(a.tagType, b.tagType);
      case 2 => NumberResult(a.clientData, b.clientData);
      case 3 => TextResult(a.stateDate, b.stateDate);
      case 4 => TextResult(a.padding3, b.padding3);
      case 5 => NumberResult(a.stateVersion, b.stateVersion);
      case 6 => NumberResult(a.noElevations, b.noElevations);
      case 7 => NumberResult(a.period, b.period);
      case 8 => TextResult(a.text, b.text);
      case 9 => TextResult(a.padding7, b.padding7);
      case 10 => NumberResult(a.numValues, b.numValues);
      case _ => TextResult(a.padding8, b.padding8);
    }
  }

  /** The comparison told by the fields themselves: the first field that differs decides, smaller numbers and
      texts first; when none does, the first pair of values in use that differs. */
  lemma FirstFieldDecides(a: Snow, b: Snow, i: nat)
    requires Valid(a) && Valid(b) && i < FIELDS
    requires FieldResults(a, b)[i] != 0 && forall j :: 0 <= j < i ==> FieldResults(a, b)[j] == 0
    ensures Compare(Keys(a), Keys(b)) == FieldResults(a, b)[i]
  {
    hide FieldResults, FieldKeys, Compare, KeyCompare;
    forall j | 0 <= j <= i
      ensures KeyCompare(FieldKeys(a)[j], FieldKeys(b)[j]) == FieldResults(a, b)[j]
      ensures FieldResults(a, b)[j] == 0 <==> FieldKeys(a)[j] == FieldKeys(b)[j]
    {
      KeyResults(a, b, j);
    }
    FirstDifference(Keys(a), Keys(b), i);
  }

  lemma FirstValueDecides(a: Snow, b: Snow, i: nat)
    requires Valid(a) && Valid(b) && i < a.numValues && forall j :: 0 <= j < FIELDS ==> FieldResults(a, b)[j] == 0
    ensures a.numValues == b.numValues
    ensures a.values[i] != b.values[i] && a.values[..i] == b.values[..i] ==>
              Compare(Keys(a), Keys(b)) == if a.values[i] < b.values[i] then -1 else 1
  {
    hide FieldResults, FieldKeys, Compare, KeyCompare;
    forall j | 0 <= j < FIELDS ensures FieldKeys(a)[j] == FieldKeys(b)[j] {
      KeyResults(a, b, j);
    }
    assert FieldKeys(a) == FieldKeys(b);
    SameCount(a, b);
    if a.values[i] != b.values[i] && a.values[..i] == b.values[..i] {
      assert forall k :: 0 <= k < i ==> a.values[k] == a.values[..i][k] && b.values[k] == b.values[..i][k];
      RealCompare(a.values[i], b.values[i]);
      FirstDifference(Keys(a), Keys(b), FIELDS + i);
    }
  }

  /** Two messages compare equal exactly when all fields and the values in use are the same. */
  lemma EqualIffSameContent(a: Snow, b: Snow)
    requires Valid(a) && Valid(b)
    ensures Compare(Keys(a), Keys(b)) == 0 <==> a.(values := Used(a)) == b.(values := Used(b))
  {
    ZeroIffEqual(Keys(a), Keys(b));
    if Keys(a) == Keys(b) {
      assert FieldKeys(a) == Keys(a)[..FIELDS] == FieldKeys(b);
      SameFields(a, b);
      assert Values(Used(a)) == Keys(a)[FIELDS..] == Values(Used(b));
      forall i | 0 <= i < |Used(a)| ensures Used(a)[i] == Used(b)[i] {
        assert Values(Used(a))[i] == Values(Used(b))[i];
      }
    }
  }

  lemma SameFields(a: Snow, b: Snow)
    requires FieldKeys(a) == FieldKeys(b)
    ensures a.(values := []) == b.(values := [])
  {
    var ka, kb := FieldKeys(a), FieldKeys(b);
    assert ka[0] == kb[0] && ka[1] == kb[1] && ka[2] == kb[2] && ka[3] == kb[3] && ka[4] == kb[4] && ka[5] == kb[5];
    assert ka[6] == kb[6] && ka[7] == kb[7] && ka[8] == kb[8] && ka[9] == kb[9] && ka[10] == kb[10] && ka[11] == kb[11];
  }

  /** The comparison is a total order on contents. */
  lemma CompareIsTotalOrder(a: Snow, b: Snow, c: Snow)
    requires Valid(a) && Valid(b) && Valid(c)
    ensures Compare(Keys(a), Keys(b)) == -Compare(Keys(b), Keys(a))
    ensures Compare(Keys(a), Keys(b)) <= 0 && Compare(Keys(b), Keys(c)) <= 0 ==> Compare(Keys(a), Keys(c)) <= 0
  {
    CompareIsAntisymmetric(Keys(a), Keys(b));
    if Compare(Keys(a), Keys(b)) <= 0 && Compare(Keys(b), Keys(c)) <= 0 {
      CompareIsTransitive(Keys(a), Keys(b), Keys(c));
    }
  }
}
