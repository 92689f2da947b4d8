/** The role cache of the configuration reader: roles are loaded at most once per lifetime, and three
    lookups read the loaded rows. Times are clock ticks; the lock makes each lookup atomic. */
module RoleCache {
  import opened Options

  /** A cached role; rows come from a dictionary keyed by id, so no id repeats. */
  datatype Role = Role(key: int, name: string, user: string)

  /** What a load gives: the roles read, or a failure, which is cached as no roles at all. */
  datatype Load = Loaded(roles: seq<Role>) | Failed

  const NOT_FOUND := -1

  function Rows(load: Load): seq<Role> {
    match load
    case Loaded(roles) => roles
    case Failed => []
  }

  ghost predicate DistinctKeys(rows: seq<Role>) {
    forall i, j :: 0 <= i < j < |rows| ==> rows[i].key != rows[j].key
  }

  ghost predicate DistinctNames(rows: seq<Role>) {
    forall i, j :: 0 <= i < j < |rows| ==> rows[i].name != rows[j].name
  }

  /** The rows and when their load was completed. */
  datatype Snapshot = Snapshot(rows: seq<Role>, completed: int)

  /** The environment of one lookup: the clock when the lookup starts and when a load it makes is
      completed, and what that load gives. */
  datatype Reading = Reading(now: int, completed: int, load: Load)

  /** The snapshot a lookup uses: the cached one unless its lifetime is exceeded. */
  function Used(cache: Option<Snapshot>, r: Reading, lifetime: int): Snapshot {
    if cache.Some? && r.now <= cache.value.completed + lifetime then cache.value
    else Snapshot(Rows(r.load), r.completed)
  }

  /** The clock does not run backwards, from `start` on. */
  ghost predicate Monotone(start: int, readings: seq<Reading>)
    decreases |readings|
  {
    readings == [] ||
    (start <= readings[0].now <= readings[0].completed && Monotone(readings[0].completed, readings[1..]))
  }

  /** The snapshots a run of lookups uses. */
  function Run(cache: Option<Snapshot>, readings: seq<Reading>, lifetime: int): (used: seq<Snapshot>)
    ensures |used| == |readings|
    decreases |readings|
  {
    if readings == [] then []
    else
      var s := Used(cache, readings[0], lifetime);
      [s] + Run(Some(s), readings[1..], lifetime)
  }

  /** A snapshot is the result of one load of the run, or the one the run started with. */
  ghost predicate FromOneLoad(s: Snapshot, cache: Option<Snapshot>, readings: seq<Reading>, i: nat) {
    || cache == Some(s)
    || exists j :: 0 <= j <= i < |readings| && s == Snapshot(Rows(readings[j].load), readings[j].completed)
  }

  /** With a clock that does not run backwards every lookup of a run uses the result of one single load,
      and that load was completed at most one lifetime before the lookup started (or during it). */
  lemma {:induction false} LookupsAreFresh(
    cache: Option<Snapshot>, readings: seq<Reading>, lifetime: int, start: int, i: nat)
    requires Monotone(start, readings) && lifetime >= 0 && i < |readings|
    ensures var s := Run(cache, readings, lifetime)[i];
            && FromOneLoad(s, cache, readings, i)
            && readings[i].now - s.completed <= lifetime
    decreases |readings|
  {
    var s := Used(cache, readings[0], lifetime);
    if i == 0 {
      if cache != Some(s) {
        assert s == Snapshot(Rows(readings[0].load), readings[0].completed);
      }
    } else {
      LookupsAreFresh(Some(s), readings[1..], lifetime, readings[0].completed, i - 1);
      var t := Run(Some(s), readings[1..], lifetime)[i - 1];
      if t != s {
        var j :| 0 <= j <= i - 1 && t == Snapshot(Rows(readings[1..][j].load), readings[1..][j].completed);
        assert readings[1..][j] == readings[j + 1];
      } else if cache != Some(s) {
        assert s == Snapshot(Rows(readings[0].load), readings[0].completed);
      }
    }
  }

  /** What a load leaves in the cache: its roles, none if it failed, and the time it was completed. */
  function Loading(r: Reading): (s: Snapshot)
    ensures s.completed == r.completed
    ensures r.load.Loaded? ==> s.rows == r.load.roles
    ensures r.load.Failed? ==> s.rows == []
  {
    Snapshot(Rows(r.load), r.completed)
  }

  /** The snapshots of a run, told by neighbours: a lookup uses the snapshot of the one before it as long as
      no more than a lifetime has passed since its load was completed, and makes a load of its own exactly
      when more has passed. The first one does the same with what the cache holds, and loads when it holds
      nothing. */
  lemma {:induction false} ReloadsIff(cache: Option<Snapshot>, readings: seq<Reading>, lifetime: int, i: nat)
    requires i < |readings|
    ensures var used := Run(cache, readings, lifetime);
            var before := if i == 0 then cache else Some(used[i - 1]);
            && (before.Some? && readings[i].now <= before.value.completed + lifetime ==> used[i] == before.value)
            && (before.None? || readings[i].now > before.value.completed + lifetime ==> used[i] == Loading(readings[i]))
    decreases |readings|
  {
    if i > 0 {
      var s := Used(cache, readings[0], lifetime);
      ReloadsIff(Some(s), readings[1..], lifetime, i - 1);
    }
  }

  /** Within its lifetime a snapshot is used by every lookup, whatever a load would give. */
  lemma {:induction false} SnapshotIsKept(
    cache: Option<Snapshot>, readings: seq<Reading>, lifetime: int, i: nat, j: nat)
    requires i <= j < |readings|
    requires var s := Run(cache, readings, lifetime)[i];
             forall k :: i < k <= j ==> readings[k].now <= s.completed + lifetime
    ensures Run(cache, readings, lifetime)[j] == Run(cache, readings, lifetime)[i]
    decreases j
  {
    if i < j {
      SnapshotIsKept(cache, readings, lifetime, i, j - 1);
      ReloadsIff(cache, readings, lifetime, j);
    }
  }

  /** The linear lookup: it goes on behind rows with a negative key. */
  function LinearKey(rows: seq<Role>, name: string): int {
    LinearFrom(rows, name, NOT_FOUND)
  }

  function LinearFrom(rows: seq<Role>, name: string, found: int): int
    decreases |rows|
  {
    if rows == [] || found >= 0 then found
    else LinearFrom(rows[1..], name, if rows[0].name == name then rows[0].key else found)
  }

  /** The dictionary from keys to names; None when a key would be added twice, which throws. */
  function KeyView(rows: seq<Role>): Option<map<int, string>> {
    if rows == [] then Some(map[])
    else
      var last := rows[|rows| - 1];
      match KeyView(rows[..|rows| - 1])
      case None => None
      case Some(m) => if last.key in m then None else Some(m[last.key := last.name])
  }

  /** The dictionary from names to keys; None when a name would be added twice. */
  function NameView(rows: seq<Role>): Option<map<string, int>> {
    if rows == [] then Some(map[])
    else
      var last := rows[|rows| - 1];
      match NameView(rows[..|rows| - 1])
      case None => None
      case Some(m) => if last.name in m then None else Some(m[last.name := last.key])
  }

  /** The map has the keys of the rows, each with the name of its row. */
  ghost predicate KeysHeld(rows: seq<Role>, m: map<int, string>) {
    && (forall i :: 0 <= i < |rows| ==> rows[i].key in m && m[rows[i].key] == rows[i].name)
    && (forall key :: key in m ==> exists i :: 0 <= i < |rows| && rows[i].key == key)
  }

  ghost predicate NamesHeld(rows: seq<Role>, m: map<string, int>) {
    && (forall i :: 0 <= i < |rows| ==> rows[i].name in m && m[rows[i].name] == rows[i].key)
    && (forall name :: name in m ==> exists i :: 0 <= i < |rows| && rows[i].name == name)
  }

  /** One row more. */
  lemma KeysHeldStep(rows: seq<Role>, m: map<int, string>, last: Role)
    requires KeysHeld(rows, m)
    ensures DistinctKeys(rows + [last]) <==> DistinctKeys(rows) && last.key !in m
    ensures last.key !in m ==> KeysHeld(rows + [last], m[last.key := last.name])
  {
    var all, m' := rows + [last], m[last.key := last.name];
    assert all[|rows|] == last && forall i :: 0 <= i < |rows| ==> all[i] == rows[i];
    if last.key !in m {
      forall key | key in m' ensures exists i :: 0 <= i < |all| && all[i].key == key {
        if key != last.key {
          var i :| 0 <= i < |rows| && rows[i].key == key;
          assert all[i].key == key;
        }
      }
    }
  }

  lemma NamesHeldStep(rows: seq<Role>, m: map<string, int>, last: Role)
    requires NamesHeld(rows, m)
    ensures DistinctNames(rows + [last]) <==> DistinctNames(rows) && last.name !in m
    ensures last.name !in m ==> NamesHeld(rows + [last], m[last.name := last.key])
  {
    var all, m' := rows + [last], m[last.name := last.key];
    assert all[|rows|] == last && forall i :: 0 <= i < |rows| ==> all[i] == rows[i];
    if last.name !in m {
      forall name | name in m' ensures exists i :: 0 <= i < |all| && all[i].name == name {
        if name != last.name {
          var i :| 0 <= i < |rows| && rows[i].name == name;
          assert all[i].name == name;
        }
      }
    }
  }

  lemma DistinctFront(rows: seq<Role>, n: nat)
    requires n <= |rows|
    ensures DistinctKeys(rows) ==> DistinctKeys(rows[..n])
    ensures DistinctNames(rows) ==> DistinctNames(rows[..n])
  {
  }

  lemma ViewsTurn(front: seq<Role>, last: Role)
    ensures KeyView(front + [last]) ==
            match KeyView(front)
            case None => None
            case Some(m) => if last.key in m then None else Some(m[last.key := last.name])
    ensures NameView(front + [last]) ==
            match NameView(front)
            case None => None
            case Some(m) => if last.name in m then None else Some(m[last.name := last.key])
  {
    assert (front + [last])[..|front + [last]| - 1] == front;
  }

  /** The key view exists exactly for distinct keys, and holds the rows. */
  lemma {:induction false} KeyViewHoldsRows(rows: seq<Role>)
    ensures KeyView(rows).Some? <==> DistinctKeys(rows)
    ensures KeyView(rows).Some? ==> KeysHeld(rows, KeyView(rows).value)
  {
    if rows != [] {
      var front, last := rows[..|rows| - 1], rows[|rows| - 1];
      KeyViewHoldsRows(front);
      DistinctFront(rows, |rows| - 1);
      assert rows == front + [last];
      ViewsTurn(front, last);
      hide KeyView, KeysHeld, DistinctKeys;
      if KeyView(front).Some? {
        KeysHeldStep(front, KeyView(front).value, last);
      }
    }
  }

  /** The name view exists exactly for distinct names, and holds the rows. */
  lemma {:induction false} NameViewHoldsRows(rows: seq<Role>)
    ensures NameView(rows).Some? <==> DistinctNames(rows)
    ensures NameView(rows).Some? ==> NamesHeld(rows, NameView(rows).value)
  {
    if rows != [] {
      var front, last := rows[..|rows| - 1], rows[|rows| - 1];
      NameViewHoldsRows(front);
      DistinctFront(rows, |rows| - 1);
      assert rows == front + [last];
      ViewsTurn(front, last);
      hide NameView, NamesHeld, DistinctNames;
      if NameView(front).Some? {
        NamesHeldStep(front, NameView(front).value, last);
      }
    }
  }

  /** With distinct names the linear lookup gives the key of the row with the name, whatever its sign. */
  lemma {:induction false} LinearFindsRow(rows: seq<Role>, name: string)
    requires DistinctNames(rows)
    ensures forall i :: 0 <= i < |rows| && rows[i].name == name ==> LinearKey(rows, name) == rows[i].key
    ensures (forall i :: 0 <= i < |rows| ==> rows[i].name != name) ==> LinearKey(rows, name) == NOT_FOUND
    decreases |rows|
  {
    if rows != [] {
      var rest := rows[1..];
      assert forall i :: 0 <= i < |rest| ==> rest[i] == rows[i + 1];
      if rows[0].name == name {
        NothingElseFound(rest, name, rows[0].key);
      } else {
        LinearFindsRow(rest, name);
        assert forall i :: 0 < i < |rows| ==> rows[i] == rest[i - 1];
      }
    }
  }

  lemma {:induction false} NothingElseFound(rows: seq<Role>, name: string, found: int)
    requires forall i :: 0 <= i < |rows| ==> rows[i].name != name
    ensures LinearFrom(rows, name, found) == found
    decreases |rows|
  {
    if rows != [] && found < 0 {
      NothingElseFound(rows[1..], name, found);
    }
  }

  /** With distinct names the linear lookup gives what the name view gives, and -1 for absent names. */
  lemma LinearIsNameView(rows: seq<Role>, name: string)
    requires DistinctNames(rows)
    ensures NameView(rows).Some?
    ensures var names := NameView(rows).value; LinearKey(rows, name) == if name in names then names[name] else NOT_FOUND
  {
    NameViewHoldsRows(rows);
    LinearFindsRow(rows, name);
    var names := NameView(rows).value;
    if name in names {
      var i :| 0 <= i < |rows| && rows[i].name == name;
    }
  }

  /** The three lookups agree: on rows with distinct keys and names both views exist, they are inverse to
      each other, and the linear lookup gives what the name view gives. Its -1 means that a name is absent
      for every name exactly when no row has the key -1. */
  lemma LookupsAgree(rows: seq<Role>)
    requires DistinctKeys(rows) && DistinctNames(rows)
    ensures KeyView(rows).Some? && NameView(rows).Some?
    ensures var keys, names := KeyView(rows).value, NameView(rows).value;
            && (forall key, name :: key in keys && keys[key] == name <==> name in names && names[name] == key)
            && (forall name :: LinearKey(rows, name) == if name in names then names[name] else NOT_FOUND)
            && ((forall name :: LinearKey(rows, name) == NOT_FOUND <==> name !in names) <==>
                forall i :: 0 <= i < |rows| ==> rows[i].key != NOT_FOUND)
  {
    KeyViewHoldsRows(rows);
    NameViewHoldsRows(rows);
    var names := NameView(rows).value;
    forall name ensures LinearKey(rows, name) == if name in names then names[name] else NOT_FOUND {
      LinearIsNameView(rows, name);
    }
    hide KeyView, NameView, LinearKey;
    assert forall i :: 0 <= i < |rows| ==> LinearKey(rows, rows[i].name) == rows[i].key;
  }

  /** Row `i` is the first one of the name whose key is not negative. */
  ghost predicate IsFirstUsable(rows: seq<Role>, name: string, i: nat) {
    i < |rows| && rows[i].name == name && rows[i].key >= 0 &&
    forall j :: 0 <= j < i ==> !(rows[j].name == name && rows[j].key >= 0)
  }

  /** The linear lookup on any rows: the first row of the name with a key that is not negative decides. When
      there is none, no row with another key has been found. */
  lemma {:induction false} LinearIsFirstUsable(rows: seq<Role>, name: string, found: int)
    requires found < 0
    ensures forall i: nat :: IsFirstUsable(rows, name, i) ==> LinearFrom(rows, name, found) == rows[i].key
    ensures (forall i: nat :: !IsFirstUsable(rows, name, i)) ==> LinearFrom(rows, name, found) < 0
    decreases |rows|
  {
    if rows != [] {
      var next := if rows[0].name == name then rows[0].key else found;
      if next >= 0 {
        assert IsFirstUsable(rows, name, 0);
      } else {
        LinearIsFirstUsable(rows[1..], name, next);
        forall i: nat ensures IsFirstUsable(rows[1..], name, i) ==> IsFirstUsable(rows, name, i + 1) {
          UsableShift(rows, name, i);
        }
        forall i: nat | IsFirstUsable(rows, name, i) ensures i > 0 && IsFirstUsable(rows[1..], name, i - 1) {
          UsableShift(rows, name, i - 1);
        }
      }
    }
  }

  lemma UsableShift(rows: seq<Role>, name: string, i: nat)
    requires rows != [] && !(rows[0].name == name && rows[0].key >= 0)
    ensures IsFirstUsable(rows[1..], name, i) <==> IsFirstUsable(rows, name, i + 1)
  {
    assert forall j :: 0 <= j < |rows| - 1 ==> rows[1..][j] == rows[j + 1];
  }

  /** With a repeated name the name view throws while the linear lookup still answers. */
  lemma RepeatedNameBreaksTheView()
    ensures var rows := [Role(1, "trader", "u"), Role(2, "trader", "v")];
            KeyView(rows).Some? && NameView(rows).None? && LinearKey(rows, "trader") == 1
  {
    var rows := [Role(1, "trader", "u"), Role(2, "trader", "v")];
    KeyViewHoldsRows(rows);
    NameViewHoldsRows(rows);
    assert rows[0].name == rows[1].name;
    assert LinearFrom(rows, "trader", NOT_FOUND) == LinearFrom(rows[1..], "trader", 1);
  }

  class ConfigurationSystemReader {
    var cache: Option<Snapshot>
    const lifetime: int

    constructor (lifetime: int)
      ensures cache == None && this.lifetime == lifetime
    {
      cache, this.lifetime := None, lifetime;
    }

    /** Reloads the roles when there are none or their lifetime is exceeded. */
    method VerifyCache(r: Reading)
      modifies this
      ensures cache == Some(Used(old(cache), r, lifetime))
      ensures old(cache).Some? && r.now <= old(cache).value.completed + lifetime ==> cache == old(cache)
      ensures old(cache).None? || r.now > old(cache).value.completed + lifetime ==> cache == Some(Loading(r))
    {
      if cache.Some? && cache.value.completed + lifetime < r.now {
        cache := None;
      }
      if cache.None? {
        cache := Some(Snapshot(Rows(r.load), r.completed));
      }
    }

    method GetRoleKeyFromCache(roleName: string, r: Reading) returns (roleKey: int)
      modifies this
      ensures cache == Some(Used(old(cache), r, lifetime))
      ensures roleKey == LinearKey(cache.value.rows, roleName)
    {
      VerifyCache(r);
      var rows := cache.value.rows;
      roleKey := NOT_FOUND;
      var i := 0;
      while roleKey < 0 && i < |rows|
        invariant i <= |rows|
        invariant LinearKey(rows, roleName) == LinearFrom(rows[i..], roleName, roleKey)
        decreases |rows| - i
      {
        assert rows[i..][0] == rows[i] && rows[i..][1..] == rows[i + 1..];
        if rows[i].name == roleName {
          roleKey := rows[i].key;
        }
        i := i + 1;
      }
    }

    /** All roles by key; None stands for the exception of a repeated key. */
    method GetRoleKeysFromCache(r: Reading) returns (roles: Option<map<int, string>>)
      modifies this
      ensures cache == Some(Used(old(cache), r, lifetime))
      ensures roles == KeyView(cache.value.rows)
    {
      VerifyCache(r);
      var rows := cache.value.rows;
      roles := Some(map[]);
      for i := 0 to |rows|
        invariant roles == KeyView(rows[..i])
      {
        assert rows[..i + 1][..i] == rows[..i];
        if roles.Some? {
          roles := if rows[i].key in roles.value then None else Some(roles.value[rows[i].key := rows[i].name]);
        }
      }
      assert rows[..|rows|] == rows;
    }

    /** All roles by name; None stands for the exception of a repeated name. */
    method GetRoleNamesFromCache(r: Reading) returns (roles: Option<map<string, int>>)
      modifies this
      ensures cache == Some(Used(old(cache), r, lifetime))
      ensures roles == NameView(cache.value.rows)
    {
      VerifyCache(r);
      var rows := cache.value.rows;
      roles := Some(map[]);
      for i := 0 to |rows|
        invariant roles == NameView(rows[..i])
      {
        assert rows[..i + 1][..i] == rows[..i];
        if roles.Some? {
          roles := if rows[i].name in roles.value then None else Some(roles.value[rows[i].name := rows[i].key]);
        }
      }
      assert rows[..|rows|] == rows;
    }
  }
}
