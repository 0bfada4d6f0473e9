/** The runtime state store: one version per user, flushed to a file when dirty (internal/state/store.go). */
module StateStore {
  import opened Base
  import Utf8

  type Versions = map<gostring, uint64>

  function VersionOf(versions: Versions, username: gostring): uint64 {
    if username in versions then versions[username] else 0
  }

  /** The monotone merge of one saved version. */
  function Merged(versions: Versions, username: gostring, version: uint64): Versions {
    if version > VersionOf(versions, username) then versions[username := version] else versions
  }

  lemma MergedIsMax(versions: Versions, username: gostring, version: uint64, other: gostring)
    ensures VersionOf(Merged(versions, username, version), other) ==
            if other == username then Max(VersionOf(versions, username), version) else VersionOf(versions, other)
  {}

  datatype StateEntry = StateEntry(username: gostring, version: uint64)

  /** What reading and unmarshalling the state file gives. */
  datatype StateFile = Missing | Unreadable | Entries(entries: seq<StateEntry>)

  predicate WellFormed(entries: seq<StateEntry>) {
    && (forall i :: 0 <= i < |entries| ==> !Utf8.IsBlank(entries[i].username) && entries[i].version != 0)
    && (forall i, j :: 0 <= i < j < |entries| ==> entries[i].username != entries[j].username)
  }

  /** The entries hold exactly the versions. */
  ghost predicate Records(entries: seq<StateEntry>, versions: Versions) {
    && (forall i :: 0 <= i < |entries| ==> entries[i].username in versions && versions[entries[i].username] == entries[i].version)
    && (forall username :: username in versions ==> StateEntry(username, versions[username]) in entries)
  }

  lemma RecordsOneMap(entries: seq<StateEntry>, a: Versions, b: Versions)
    requires Records(entries, a) && Records(entries, b)
    ensures a == b
  {
    forall username ensures username in a <==> username in b {
      if username in a { assert StateEntry(username, a[username]) in entries; }
      if username in b { assert StateEntry(username, b[username]) in entries; }
    }
    forall username | username in a ensures a[username] == b[username] {
      assert StateEntry(username, a[username]) in entries;
    }
  }

  /** ... each user listed once, in name order. */
  ghost predicate Lists(entries: seq<StateEntry>, versions: Versions) {
    && Records(entries, versions)
    && InNameOrder(entries)
  }

  ghost predicate NamesDiffer(entries: seq<StateEntry>) {
    forall i, j :: 0 <= i < j < |entries| ==> entries[i].username != entries[j].username
  }

  lemma InOrderNamesDiffer(entries: seq<StateEntry>)
    requires InNameOrder(entries)
    ensures NamesDiffer(entries)
  {
    forall i, j | 0 <= i < j < |entries| ensures entries[i].username != entries[j].username {
      StringLessIsTotal(entries[i].username, entries[j].username);
    }
  }

  ghost predicate InNameOrder(entries: seq<StateEntry>) {
    forall i, j :: 0 <= i < j < |entries| ==> StringLess(entries[i].username, entries[j].username)
  }

  /** NewStore's load: a malformed entry fails the start. */
  method Load(file: StateFile) returns (r: Result<Versions, ()>)
    ensures r.Ok? <==> file.Missing? || (file.Entries? && WellFormed(file.entries))
    ensures r.Ok? && file.Missing? ==> r.value == map[]
    ensures r.Ok? && file.Entries? ==> Records(file.entries, r.value)
  {
    match file
    case Missing => return Ok(map[]);
    case Unreadable => return Err(());
    case Entries(entries) =>
      var result: Versions := map[];
      for i := 0 to |entries|
        invariant WellFormed(entries[..i])
        invariant Records(entries[..i], result)
      {
        var entry := entries[i];
        if Utf8.IsBlank(entry.username) || entry.version == 0 {
          return Err(());
        }
        if entry.username in result {
          DuplicateIsMalformed(entries, i, result);
          return Err(());
        }
        RecordsStep(entries, i, result);
        result := result[entry.username := entry.version];
      }
      assert entries[..|entries|] == entries;
      r := Ok(result);
  }

  lemma DuplicateIsMalformed(entries: seq<StateEntry>, i: nat, result: Versions)
    requires i < |entries| && Records(entries[..i], result) && entries[i].username in result
    ensures !WellFormed(entries)
  {
    var e := StateEntry(entries[i].username, result[entries[i].username]);
    var j :| 0 <= j < i && entries[..i][j] == e;
    assert entries[j].username == entries[i].username;
  }

  lemma RecordsStep(entries: seq<StateEntry>, i: nat, result: Versions)
    requires i < |entries| && Records(entries[..i], result) && WellFormed(entries[..i])
    requires !Utf8.IsBlank(entries[i].username) && entries[i].version != 0 && entries[i].username !in result
    ensures Records(entries[..i + 1], result[entries[i].username := entries[i].version])
    ensures WellFormed(entries[..i + 1])
  {
    hide Utf8.IsBlank;
    var next := entries[..i + 1];
    assert next == entries[..i] + [entries[i]];
    forall j | 0 <= j < i ensures next[j].username != entries[i].username {
      assert next[j] == entries[..i][j];
    }
  }

  lemma ListsDetermine(entries: seq<StateEntry>, versions: Versions)
    requires Lists(entries, versions)
    ensures WellFormed(entries) <==> forall username :: username in versions ==> !Utf8.IsBlank(username) && versions[username] != 0
  {
    InOrderNamesDiffer(entries);
    forall username | username in versions && WellFormed(entries)
      ensures !Utf8.IsBlank(username) && versions[username] != 0
    {
      var i :| 0 <= i < |entries| && entries[i] == StateEntry(username, versions[username]);
    }
  }

  /** Starting again from a flushed file gives back every version, as long as no user name is blank. */
  method Reload(entries: seq<StateEntry>, ghost versions: Versions) returns (r: Result<Versions, ()>)
    requires Lists(entries, versions) && forall username :: username in versions ==> versions[username] != 0
    ensures r.Ok? <==> forall username :: username in versions ==> !Utf8.IsBlank(username)
    ensures r.Ok? ==> r.value == versions
  {
    ListsDetermine(entries, versions);
    r := Load(Entries(entries));
    if r.Ok? {
      RecordsOneMap(entries, r.value, versions);
    }
  }

  /** One user's share of a store: the version in memory, the one in the file, whether anything is unsaved, and
      whether the store has been stopped. */
  datatype Kept = Kept(stored: uint64, disk: uint64, dirty: bool, stopped: bool)

  function Saved(k: Kept, version: uint64): Kept {
    k.(stored := Max(k.stored, version), dirty := true)
  }

  function Flushed(k: Kept, writes: bool): Kept {
    if k.dirty && writes then k.(disk := k.stored, dirty := false) else k
  }

  function StoppedWith(k: Kept, writes: bool): Kept {
    if k.stopped then k else Flushed(k, writes).(stopped := true)
  }

  /** A new store on the same file. */
  function Reopened(k: Kept): Kept {
    Kept(k.disk, k.disk, false, false)
  }

  class Store {
    var versions: Versions
    var isDirty: bool
    var stopped: bool
    var disk: StateFile

    /** Versions held are positive, and a clean store has everything on disk or never held anything new. */
    ghost predicate Valid()
      reads this
    {
      && (forall username :: username in versions ==> versions[username] != 0)
      && (!isDirty ==> OnDisk())
      && !disk.Unreadable? && (disk.Entries? ==> NamesDiffer(disk.entries))
    }

    ghost predicate OnDisk()
      reads this
    {
      match disk
      case Missing => versions == map[]
      case Unreadable => false
      case Entries(entries) => Records(entries, versions)
    }

    constructor (file: StateFile, loaded: Versions)
      requires file.Missing? ==> loaded == map[]
      requires !file.Unreadable?
      requires file.Entries? ==> WellFormed(file.entries) && Records(file.entries, loaded)
      ensures Valid() && versions == loaded && !isDirty && !stopped && disk == file
    {
      versions := loaded;
      isDirty := false;
      stopped := false;
      disk := file;
      new;
      forall username | username in versions ensures versions[username] != 0 {
        assert StateEntry(username, versions[username]) in file.entries;
      }
    }

    method GetVersion(username: gostring) returns (version: uint64)
      ensures version == VersionOf(versions, username)
    {
      version := if username in versions then versions[username] else 0;
    }

    method SaveVersion(username: gostring, version: uint64)
      requires Valid()
      modifies this`versions, this`isDirty
      ensures Valid() && isDirty
      ensures versions == Merged(old(versions), username, version)
    {
      var held := if username in versions then versions[username] else 0;
      if version > held {
        versions := versions[username := version];
      }
      isDirty := true;
    }

    /** `writes` says whether the file write succeeds. */
    method Flush(writes: bool) returns (ok: bool)
      requires Valid()
      modifies this`isDirty, this`disk
      ensures Valid()
      ensures ok <==> old(isDirty) && writes
      ensures ok ==> disk.Entries? && Lists(disk.entries, versions) && !isDirty
      ensures !ok ==> disk == old(disk) && isDirty == old(isDirty)
    {
      if !isDirty {
        return false;
      }
      isDirty := false;
      var entries := SortedEntries(versions);
      if !writes {
        isDirty := true;
        return false;
      }
      disk := Entries(entries);
      InOrderNamesDiffer(entries);
      ok := true;
    }

    method Stop(writes: bool)
      requires Valid()
      modifies this`stopped, this`isDirty, this`disk
      ensures Valid() && stopped
      ensures !old(stopped) && (writes || !old(isDirty)) ==> OnDisk() && !isDirty
      ensures old(stopped) ==> disk == old(disk) && isDirty == old(isDirty)
    {
      if stopped {
        return;
      }
      stopped := true;
      var _ := Flush(writes);
    }
  }

  /** All entries in name order, whatever order the map yields them in. */
  method SortedEntries(versions: Versions) returns (entries: seq<StateEntry>)
    ensures Lists(entries, versions)
  {
    entries := [];
    var todo: Versions := versions;
    while todo != map[]
      invariant forall username :: username in todo ==> username in versions && todo[username] == versions[username]
      invariant Lists(entries, versions - todo.Keys)
      decreases |todo|
    {
      var username :| username in todo;
      var entry := StateEntry(username, todo[username]);
      ghost var seen := versions - todo.Keys;
      InsertKeepsLists(entry, entries, seen);
      entries := InsertByName(entry, entries);
      todo := todo - {username};
      assert versions - todo.Keys == seen[username := entry.version];
    }
    assert versions - todo.Keys == versions;
  }

  function InsertByName(entry: StateEntry, entries: seq<StateEntry>): (r: seq<StateEntry>)
    ensures forall e :: e in r <==> e == entry || e in entries
  {
    if entries == [] || StringLess(entry.username, entries[0].username) then [entry] + entries
    else
      assert entries == [entries[0]] + entries[1..];
      [entries[0]] + InsertByName(entry, entries[1..])
  }

  lemma {:induction false} InsertKeepsOrder(entry: StateEntry, entries: seq<StateEntry>)
    requires InNameOrder(entries)
    requires forall i :: 0 <= i < |entries| ==> entries[i].username != entry.username
    ensures InNameOrder(InsertByName(entry, entries))
  {
    hide StringLess;
    if entries == [] {
    } else if StringLess(entry.username, entries[0].username) {
      forall j | 0 < j < |entries| ensures StringLess(entry.username, entries[j].username) {
        StringLessIsTransitive(entry.username, entries[0].username, entries[j].username);
      }
    } else {
      StringLessIsTotal(entry.username, entries[0].username);
      var rest := InsertByName(entry, entries[1..]);
      InsertKeepsOrder(entry, entries[1..]);
      var r := InsertByName(entry, entries);
      assert r == [entries[0]] + rest;
      forall i, j | 0 < i < j < |r| ensures StringLess(r[i].username, r[j].username) {
        assert r[i] == rest[i - 1] && r[j] == rest[j - 1];
      }
      forall j | 0 <= j < |rest| ensures StringLess(entries[0].username, rest[j].username) {
        assert rest[j] in rest;
        if rest[j] != entry {
          var k :| 0 <= k < |entries[1..]| && entries[1..][k] == rest[j];
        }
      }
    }
  }

  lemma InsertKeepsLists(entry: StateEntry, entries: seq<StateEntry>, versions: Versions)
    requires Lists(entries, versions) && entry.username !in versions
    ensures Lists(InsertByName(entry, entries), versions[entry.username := entry.version])
  {
    forall i | 0 <= i < |entries| ensures entries[i].username != entry.username {
      assert entries[i].username in versions;
    }
    InsertKeepsOrder(entry, entries);
    var r := InsertByName(entry, entries);
    var versions' := versions[entry.username := entry.version];
    forall i | 0 <= i < |r| ensures r[i].username in versions' && versions'[r[i].username] == r[i].version {
      assert r[i] in r;
      if r[i] != entry {
        var k :| 0 <= k < |entries| && entries[k] == r[i];
      }
    }
  }
}
