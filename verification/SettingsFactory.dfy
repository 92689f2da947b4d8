/** DataExchangeSettingsFactory: the settings in use are derived from ';'-separated machine lists and two
    indices, and cached until an index changes. */
module SettingsFactory {
  import opened Options
  import opened Text

  const SEPARATOR := ';'

  /** string.Split on one character. */
  function Split(s: string, c: char): (parts: seq<string>)
    ensures |parts| >= 1
    decreases |s|
  {
    var i := Find(s, c, 0);
    if i == |s| then [s] else [s[..i]] + Split(s[i + 1..], c)
  }

  function Join(parts: seq<string>, c: char): string
    requires |parts| >= 1
  {
    if |parts| == 1 then parts[0] else parts[0] + [c] + Join(parts[1..], c)
  }

  /** Splitting loses nothing, and there is more than one part exactly when the separator occurs. */
  lemma {:induction false} SplitJoin(s: string, c: char)
    ensures Join(Split(s, c), c) == s
    ensures |Split(s, c)| > 1 <==> c in s
    decreases |s|
  {
    FindIsFirst(s, c, 0);
    var i := Find(s, c, 0);
    if i < |s| {
      SplitJoin(s[i + 1..], c);
      assert Split(s, c)[1..] == Split(s[i + 1..], c);
      assert s == s[..i] + [c] + s[i + 1..];
    }
  }

  /** The parts hold no separator; together with the joined text that determines them. */
  lemma {:induction false} PartsHoldNoSeparator(s: string, c: char)
    ensures forall part :: part in Split(s, c) ==> c !in part
    decreases |s|
  {
    FindIsFirst(s, c, 0);
    var i := Find(s, c, 0);
    if i < |s| {
      PartsHoldNoSeparator(s[i + 1..], c);
      assert forall part :: part in Split(s, c) ==> part == s[..i] || part in Split(s[i + 1..], c);
    }
  }

  datatype Settings = Settings(exportMachine: string, importMachine: string, storeExportMessages: bool)

  /** The machine a list selects; a text without separator is a single machine whatever the index. */
  function Machines(names: string): (list: seq<string>)
    ensures |list| >= 1
  {
    if SEPARATOR in names then Split(names, SEPARATOR) else [names]
  }

  /** Where an index ends up: past the end of a list it starts over. */
  function Wrap(names: string, index: int): int {
    if SEPARATOR in names && index >= |Machines(names)| then 0 else index
  }

  /** An index that selects a machine, once wrapped. */
  predicate Usable(names: string, index: int) {
    SEPARATOR in names ==> index >= 0
  }

  function Selected(names: string, index: int): string
    requires Usable(names, index)
  {
    if SEPARATOR in names then Machines(names)[Wrap(names, index)] else names
  }

  /** What is asked of a factory, and what it answers: nothing for an index change, and for a request
      the settings or the exception of an index below the list. */
  datatype Operation = SetExport(index: int) | SetImport(index: int) | Get
  datatype Answer = Done | Found(settings: Settings) | OutOfRange

  /** The factory without a cache: the machine names and the two indices. */
  datatype Plain = Plain(exportNames: string, importNames: string, store: bool, exportIndex: int, importIndex: int)

  function Request(p: Plain): (r: (Plain, Answer)) {
    if !Usable(p.exportNames, p.exportIndex) then (p, OutOfRange)
    else
      var p' := p.(exportIndex := Wrap(p.exportNames, p.exportIndex));
      if !Usable(p.importNames, p.importIndex) then (p', OutOfRange)
      else
        (p'.(importIndex := Wrap(p.importNames, p.importIndex)),
         Found(Settings(Selected(p.exportNames, p.exportIndex), Selected(p.importNames, p.importIndex), p.store)))
  }

  /** What a request answers, told for each of the two lists by itself: a text without separator is the
      machine whatever the index; in a list the index selects, after starting over at 0 when it is past the
      end; below the list the request fails, the export list first. */
  lemma RequestAnswers(p: Plain)
    ensures var exports, imports := Split(p.exportNames, ';'), Split(p.importNames, ';');
            var e := if ';' in p.exportNames && p.exportIndex >= |exports| then 0 else p.exportIndex;
            var i := if ';' in p.importNames && p.importIndex >= |imports| then 0 else p.importIndex;
            var exportFails := ';' in p.exportNames && p.exportIndex < 0;
            var importFails := ';' in p.importNames && p.importIndex < 0;
            && (exportFails ==> Request(p) == (p, OutOfRange))
            && (!exportFails && importFails ==> Request(p) == (p.(exportIndex := e), OutOfRange))
            && (!exportFails && !importFails ==>
                  Request(p) ==
                  (p.(exportIndex := e, importIndex := i),
                   Found(Settings(if ';' in p.exportNames then exports[e] else p.exportNames,
                                  if ';' in p.importNames then imports[i] else p.importNames,
                                  p.store))))
  {
    hide Split;
  }

  function Perform(p: Plain, op: Operation): (Plain, Answer) {
    match op
    case SetExport(i) => (p.(exportIndex := i), Done)
    case SetImport(i) => (p.(importIndex := i), Done)
    case Get => Request(p)
  }

  function Answers(p: Plain, ops: seq<Operation>): seq<Answer> {
    if ops == [] then [] else Answers(p, ops[..|ops| - 1]) + [Perform(State(p, ops[..|ops| - 1]), ops[|ops| - 1]).1]
  }

  function State(p: Plain, ops: seq<Operation>): Plain {
    if ops == [] then p else Perform(State(p, ops[..|ops| - 1]), ops[|ops| - 1]).0
  }

  /** Asking again gives the same answer and moves no index. */
  lemma RequestIsStable(p: Plain)
    ensures Request(p).1.Found? ==> Request(Request(p).0) == Request(p)
  {
  }

  class DataExchangeSettingsFactory {
    const exportMachineNames: string
    const importMachineNames: string
    const storeExportMessages: bool
    var exportIndex: int
    var importIndex: int
    var currentSettings: Option<Settings>

    constructor (exportNames: string, importNames: string, store: bool)
      ensures Valid() && Abstract() == Plain(exportNames, importNames, store, 0, 0)
      ensures exportMachineNames == exportNames
    {
      exportMachineNames, importMachineNames, storeExportMessages := exportNames, importNames, store;
      exportIndex, importIndex, currentSettings := 0, 0, None;
    }

    function Abstract(): Plain
      reads this
    {
      Plain(exportMachineNames, importMachineNames, storeExportMessages, exportIndex, importIndex)
    }

    /** What is cached is what a request would derive, and every index that selects from a list is in
        range then. */
    ghost predicate Valid()
      reads this
    {
      currentSettings.Some? ==> Request(Abstract()) == (Abstract(), Found(currentSettings.value))
    }

    method SetExportIndex(value: int)
      requires Valid()
      modifies this`exportIndex, this`currentSettings
      ensures Valid() && currentSettings == None
      ensures Abstract() == old(Abstract()).(exportIndex := value)
    {
      exportIndex := value;
      currentSettings := None;
    }

    method SetImportIndex(value: int)
      requires Valid()
      modifies this`importIndex, this`currentSettings
      ensures Valid() && currentSettings == None
      ensures Abstract() == old(Abstract()).(importIndex := value)
    {
      importIndex := value;
      currentSettings := None;
    }

    /** The settings, cached or derived: the cache cannot be told from deriving them every time. */
    method GetSettings() returns (answer: Answer)
      requires Valid()
      modifies this`exportIndex, this`importIndex, this`currentSettings
      ensures Valid()
      ensures (Abstract(), answer) == Request(old(Abstract()))
    {
      if currentSettings.Some? {
        return Found(currentSettings.value);
      }
      SplitJoin(exportMachineNames, SEPARATOR);
      SplitJoin(importMachineNames, SEPARATOR);
      var currentExportMachine, currentImportMachine := exportMachineNames, importMachineNames;
      if SEPARATOR in exportMachineNames {
        var exportMachineList := Split(exportMachineNames, SEPARATOR);
        if exportIndex >= |exportMachineList| {
          SetExportIndex(0);
        }
        if exportIndex < 0 {
          return OutOfRange;
        }
        currentExportMachine := exportMachineList[exportIndex];
      }
      if SEPARATOR in importMachineNames {
        var importMachineList := Split(importMachineNames, SEPARATOR);
        if importIndex >= |importMachineList| {
          SetImportIndex(0);
        }
        if importIndex < 0 {
          return OutOfRange;
        }
        currentImportMachine := importMachineList[importIndex];
      }
      currentSettings := Some(Settings(currentExportMachine, currentImportMachine, storeExportMessages));
      return Found(currentSettings.value);
    }

    /** Any sequence of index changes and requests is answered as without the cache. */
    method PerformAll(ops: seq<Operation>) returns (answers: seq<Answer>)
      requires Valid()
      modifies this`exportIndex, this`importIndex, this`currentSettings
      ensures Valid()
      ensures Abstract() == State(old(Abstract()), ops) && answers == Answers(old(Abstract()), ops)
    {
      answers := [];
      for i := 0 to |ops|
        invariant Valid()
        invariant Abstract() == State(old(Abstract()), ops[..i]) && answers == Answers(old(Abstract()), ops[..i])
      {
        assert ops[..i + 1][..i] == ops[..i];
        match ops[i] {
          case SetExport(index) => SetExportIndex(index); answers := answers + [Done];
          case SetImport(index) => SetImportIndex(index); answers := answers + [Done];
          case Get =>
            var answer := GetSettings();
            answers := answers + [answer];
        }
      }
      assert ops[..|ops|] == ops;
    }
  }
}
