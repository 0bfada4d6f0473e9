/** The store class against one user's share of it (internal/state/store.go): what SaveVersion, Flush, Stop and
    starting again from the file do to each user's versions, in the terms of Generations. */
module Restarts {
  import opened Base
  import opened StateStore
  import Utf8

  /** The version a state file holds for a user. */
  ghost function DiskVersion(file: StateFile, username: gostring): uint64 {
    if file.Entries? && (exists e :: e in file.entries && e.username == username) then
      var e :| e in file.entries && e.username == username;
      e.version
    else 0
  }

  ghost function KeptOf(store: Store, username: gostring): Kept
    reads store
  {
    Kept(VersionOf(store.versions, username), DiskVersion(store.disk, username), store.isDirty, store.stopped)
  }

  /** A file that records some versions holds exactly these. */
  lemma RecordsOnDisk(entries: seq<StateEntry>, versions: Versions, username: gostring)
    requires Records(entries, versions)
    ensures DiskVersion(Entries(entries), username) == VersionOf(versions, username)
  {
    if username in versions { assert StateEntry(username, versions[username]) in entries; }
    forall e | e in entries ensures e.username in versions && versions[e.username] == e.version {
      var i :| 0 <= i < |entries| && entries[i] == e;
    }
  }

  /** A clean store has on disk what it has in memory. */
  lemma CleanIsOnDisk(store: Store, username: gostring)
    requires store.Valid() && !store.isDirty
    ensures KeptOf(store, username).disk == KeptOf(store, username).stored
  {
    if store.disk.Entries? { RecordsOnDisk(store.disk.entries, store.versions, username); }
  }

  method Save(store: Store, username: gostring, version: uint64)
    requires store.Valid()
    modifies store
    ensures store.Valid() && store.disk == old(store.disk)
    ensures KeptOf(store, username) == Saved(old(KeptOf(store, username)), version)
    ensures forall other :: other != username ==> KeptOf(store, other) == old(KeptOf(store, other)).(dirty := true)
  {
    MergedIsMax(store.versions, username, version, username);
    ghost var before := store.versions;
    store.SaveVersion(username, version);
    forall other | other != username ensures VersionOf(store.versions, other) == VersionOf(before, other) {
      MergedIsMax(before, username, version, other);
    }
  }

  method Flush(store: Store, writes: bool)
    requires store.Valid()
    modifies store
    ensures store.Valid() && store.versions == old(store.versions)
    ensures forall username :: KeptOf(store, username) == Flushed(old(KeptOf(store, username)), writes)
  {
    var ok := store.Flush(writes);
    if ok {
      forall username ensures DiskVersion(store.disk, username) == VersionOf(store.versions, username) {
        RecordsOnDisk(store.disk.entries, store.versions, username);
      }
    }
  }

  method StopIt(store: Store, writes: bool)
    requires store.Valid()
    modifies store
    ensures store.Valid() && store.versions == old(store.versions)
    ensures forall username :: KeptOf(store, username) == StoppedWith(old(KeptOf(store, username)), writes)
  {
    if store.stopped {
      store.Stop(writes);
      return;
    }
    store.stopped := true;
    Flush(store, writes);
  }

  /** Starting again from the file: it fails only for a blank or repeated name or a version of zero in the file. */
  method Reopen(store: Store) returns (r: Result<Store, ()>)
    requires store.Valid()
    ensures r.Ok? <==> (store.disk.Entries? ==> WellFormed(store.disk.entries))
    ensures r.Ok? ==> fresh(r.value) && r.value.Valid() && r.value.disk == store.disk
    ensures r.Ok? ==> forall username :: KeptOf(r.value, username) == Reopened(KeptOf(store, username))
  {
    var loaded := Load(store.disk);
    if loaded.Err? {
      return Err(());
    }
    var again := new Store(store.disk, loaded.value);
    if store.disk.Entries? {
      forall username ensures DiskVersion(store.disk, username) == VersionOf(loaded.value, username) {
        RecordsOnDisk(store.disk.entries, loaded.value, username);
      }
    }
    r := Ok(again);
  }

  lemma RecordedIsWellFormed(entries: seq<StateEntry>, versions: Versions)
    requires Records(entries, versions) && NamesDiffer(entries) && forall username :: username in versions ==> versions[username] != 0
    ensures WellFormed(entries) <==> forall username :: username in versions ==> !Utf8.IsBlank(username)
  {
    hide Utf8.IsBlank;
    forall username | username in versions && WellFormed(entries) ensures !Utf8.IsBlank(username) {
      var i :| 0 <= i < |entries| && entries[i] == StateEntry(username, versions[username]);
    }
  }

  /** A first stop whose write succeeds, or that finds nothing to write, and a start from its file bring every
      user's version back, unless a name is blank; so it is a stop and a restart as Generations has them, which
      lose nothing. */
  method StopAndRestart(store: Store, writes: bool) returns (r: Result<Store, ()>)
    requires store.Valid() && !store.stopped && (writes || !store.isDirty)
    modifies store
    ensures r.Ok? <==> forall username :: username in old(store.versions) ==> !Utf8.IsBlank(username)
    ensures r.Ok? ==> r.value.Valid()
    ensures r.Ok? ==> forall username ::
      var k := old(KeptOf(store, username));
      KeptOf(r.value, username) == Reopened(StoppedWith(k, writes)) == Kept(k.stored, k.stored, false, false)
  {
    hide Utf8.IsBlank;
    ghost var versions := store.versions;
    StopIt(store, writes);
    assert KeptOf(store, []).dirty == false;
    if store.disk.Entries? { RecordedIsWellFormed(store.disk.entries, versions); }
    forall username ensures KeptOf(store, username).disk == VersionOf(versions, username) {
      CleanIsOnDisk(store, username);
    }
    r := Reopen(store);
  }
}
