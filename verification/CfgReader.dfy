/** GetExpandedConfigurationInternal: the caller's name and machine and the database rows become a
    dictionary in which the first value of a name wins; the dictionary is expanded and written to two
    output arrays that are sized before duplicates are known. */
module CfgReader {
  import opened Templates
  import opened ConfigurationMap
  import opened StringExpander
  import opened ExpansionBounds

  datatype Row = Row(name: string, value: string)

  /** An element of an output array; Unused until it is written. */
  datatype Slot = Unused | Used(text: string)

  const USERNAME := "USERNAME"
  const COMPUTERNAME := "COMPUTERNAME"

  /** The dictionary after inserting rows without overwriting. */
  function InsertRows(m: map<string, string>, rows: seq<Row>): map<string, string>
    decreases rows
  {
    if rows == [] then m
    else InsertRows(if rows[0].name in m then m else m[rows[0].name := rows[0].value], rows[1..])
  }

  function Caller(userName: string, computerName: string): map<string, string> {
    map[USERNAME := userName, COMPUTERNAME := computerName]
  }

  /** The rows that add nothing, because their name is taken. */
  function Ignored(taken: set<string>, rows: seq<Row>): nat
    decreases rows
  {
    if rows == [] then 0
    else (if rows[0].name in taken then 1 else 0) + Ignored(taken + {rows[0].name}, rows[1..])
  }

  /** The index of the first row that carries `name`, |rows| when none does. */
  function FirstRow(rows: seq<Row>, name: string): (i: nat)
    ensures i <= |rows| && (i < |rows| ==> rows[i].name == name)
    ensures forall j :: 0 <= j < i ==> rows[j].name != name
  {
    if rows == [] || rows[0].name == name then 0 else 1 + FirstRow(rows[1..], name)
  }

  /** Who wins: what is in the dictionary already, then the first row of the name. */
  lemma {:induction false} FirstValueWins(m: map<string, string>, rows: seq<Row>, name: string)
    ensures var r, i := InsertRows(m, rows), FirstRow(rows, name);
            && (name in r <==> name in m || i < |rows|)
            && (name in r ==> r[name] == if name in m then m[name] else rows[i].value)
    decreases rows
  {
    if rows != [] {
      FirstValueWins(if rows[0].name in m then m else m[rows[0].name := rows[0].value], rows[1..], name);
    }
  }

  /** Every row is either an entry of its own or ignored. */
  lemma {:induction false} EntriesAndIgnored(m: map<string, string>, rows: seq<Row>)
    ensures |InsertRows(m, rows)| + Ignored(m.Keys, rows) == |m| + |rows|
    decreases rows
  {
    if rows != [] {
      var name := rows[0].name;
      var m' := if name in m then m else m[name := rows[0].value];
      EntriesAndIgnored(m', rows[1..]);
      assert m'.Keys == m.Keys + {name};
      assert |m'.Keys| == |m.Keys| + if name in m then 0 else 1;
    }
  }

  /** The dictionary before expansion. */
  function Dictionary(userName: string, computerName: string, rows: seq<Row>): map<string, string> {
    InsertRows(Caller(userName, computerName), rows)
  }

  /** The caller's values win over rows of the same name, and a value without meta characters comes
      out of the expansion as it went in. */
  lemma CallerWins(userName: string, computerName: string, rows: seq<Row>, order: seq<string>, limit: nat)
    requires Enumerates(order, Dictionary(userName, computerName, rows))
    ensures var r := ExpandAll(Dictionary(userName, computerName, rows), order, limit).entries;
            && USERNAME in r && COMPUTERNAME in r
            && (Plain(userName) ==> r[USERNAME] == userName)
            && (Plain(computerName) ==> r[COMPUTERNAME] == computerName)
  {
    hide InsertRows, Passes;
    var m := Dictionary(userName, computerName, rows);
    FirstValueWins(Caller(userName, computerName), rows, USERNAME);
    FirstValueWins(Caller(userName, computerName), rows, COMPUTERNAME);
    if Plain(userName) {
      PlainValuesSurvive(m, order, 0, limit, USERNAME);
    }
    if Plain(computerName) {
      PlainValuesSurvive(m, order, 0, limit, COMPUTERNAME);
    }
  }

  /** Inserts the caller's values and the rows. */
  method BuildMap(userName: string, computerName: string, rows: seq<Row>)
    returns (nameValueMap: CfgMap, configCountOut: nat)
    ensures fresh(nameValueMap) && nameValueMap.Valid()
    ensures nameValueMap.entries == Dictionary(userName, computerName, rows)
    ensures configCountOut == |rows| + 2
  {
    var configCountIn := |rows|;
    configCountOut := configCountIn;
    nameValueMap := new CfgMap();
    var inserted := nameValueMap.Insert(USERNAME, userName);
    if inserted {
      configCountOut := configCountOut + 1;
    }
    inserted := nameValueMap.Insert(COMPUTERNAME, computerName);
    if inserted {
      configCountOut := configCountOut + 1;
    }
    assert nameValueMap.entries == Caller(userName, computerName);
    assert rows[0..] == rows;
    var i := 0;
    while i < configCountIn
      invariant i <= configCountIn && nameValueMap.Valid() && fresh(nameValueMap)
      invariant InsertRows(nameValueMap.entries, rows[i..]) == Dictionary(userName, computerName, rows)
    {
      assert rows[i..][0] == rows[i] && rows[i..][1..] == rows[i + 1..];
      var _ := nameValueMap.Insert(rows[i].name, rows[i].value);
      i := i + 1;
    }
    assert rows[i..] == [];
  }

  /** Writes the dictionary to the front of the output arrays. */
  method WriteOut(m: CfgMap, pName: array<Slot>, pValue: array<Slot>)
    requires m.Valid() && pName != pValue && |m.order| <= pName.Length == pValue.Length
    modifies pName, pValue
    ensures forall j :: 0 <= j < |m.order| ==> pName[j] == Used(m.order[j]) && pValue[j] == Used(m.entries[m.order[j]])
    ensures forall j :: |m.order| <= j < pName.Length ==> pName[j] == old(pName[j]) && pValue[j] == old(pValue[j])
  {
    var j := 0;
    while j < |m.order|
      invariant j <= |m.order|
      invariant forall k :: 0 <= k < j ==> pName[k] == Used(m.order[k]) && pValue[k] == Used(m.entries[m.order[k]])
      invariant forall k :: j <= k < pName.Length ==> pName[k] == old(pName[k]) && pValue[k] == old(pValue[k])
    {
      pName[j] := Used(m.order[j]);
      pValue[j] := Used(m.entries[m.order[j]]);
      j := j + 1;
    }
  }

  /** A walk over the dictionary leaves as many of the slots unused as rows are ignored. */
  lemma SlotsNeeded(userName: string, computerName: string, rows: seq<Row>, order: seq<string>, limit: nat)
    requires Enumerates(order, Dictionary(userName, computerName, rows))
    ensures |order| + Ignored({USERNAME, COMPUTERNAME}, rows) == |rows| + 2
    ensures forall key :: key in order ==>
        key in ExpandAll(Dictionary(userName, computerName, rows), order, limit).entries
  {
    hide InsertRows, Passes, Ignored;
    EntriesAndIgnored(Caller(userName, computerName), rows);
    assert Caller(userName, computerName).Keys == {USERNAME, COMPUTERNAME};
    WalkLength(order, Dictionary(userName, computerName, rows));
  }

  /** Builds, expands and writes out the configuration. The ghost result is the order in which the
      dictionary is walked. As many slots stay unused as there are ignored rows. */
  method GetExpandedConfiguration(userName: string, computerName: string, rows: seq<Row>)
    returns (pName: array<Slot>, pValue: array<Slot>, configCountOut: nat, ghost order: seq<string>)
    ensures fresh(pName) && fresh(pValue)
    ensures pName.Length == pValue.Length == configCountOut == |rows| + 2
    ensures Enumerates(order, Dictionary(userName, computerName, rows)) && Ascending(order)
    ensures |order| + Ignored({USERNAME, COMPUTERNAME}, rows) == configCountOut
    ensures var r := ExpandAll(Dictionary(userName, computerName, rows), order, 10).entries;
            && (forall j :: 0 <= j < |order| ==>
               order[j] in r && pName[j] == Used(order[j]) && pValue[j] == Used(r[order[j]]))
            && (forall j :: |order| <= j < configCountOut ==> pName[j] == Unused && pValue[j] == Unused)
  {
    hide InsertRows, ExpandAll, Ascending, Ignored, Dictionary, Enumerates;
    var nameValueMap;
    nameValueMap, configCountOut := BuildMap(userName, computerName, rows);
    pName := new Slot[configCountOut](_ => Unused);
    pValue := new Slot[configCountOut](_ => Unused);
    order := nameValueMap.order;
    SlotsNeeded(userName, computerName, rows, order, 10);
    var expander := new StringExpander();
    var _ := expander.ExpandMap(nameValueMap);
    WriteOut(nameValueMap, pName, pValue);
  }
}
