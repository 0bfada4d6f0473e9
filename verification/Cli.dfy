/** The `user` commands over the bytes of users.json (internal/cli/cli.go): what a command leaves on disk, and
    what whole sequences of commands keep. A file write is one atomic success or failure. */
module Cli {
  import opened Base
  import opened UsersFiles
  import opened UsersPrinting
  import opened UsersRoundTrip
  import Tokens
  import Utf8

  /** The bytes of users.json, if there is one. */
  type Disk = Option<gostring>

  datatype Exit = Success | Failure | Panic

  /** A command with its user name and the hash of the password it read. */
  datatype Command =
    | Add(username: gostring, hash: gostring)
    | Passwd(username: gostring, hash: gostring)
    | SetDisabled(username: gostring, disabled: bool)
    | Delete(username: gostring)
    | RevokeTokens(username: gostring)

  // What a command does to a file.

  /** incrementWatermark */
  function IncrementWatermark(current: int): Option<int> {
    if current == MAX_INT64 then None else Some(current + 1)
  }

  predicate Overflows(watermark: int) {
    watermark <= 0 || watermark == MAX_INT64
  }

  /** The changed file; nothing when the command refuses. */
  function Edited(f: FileValue, c: Command): (r: Option<FileValue>)
    ensures r.Some? ==> r.value.nextTokenVersion == f.nextTokenVersion + if c.Add? || c.RevokeTokens? then 1 else 0
  {
    var k := IndexOf(f.users, c.username);
    if c.Add? then
      if k >= 0 || Overflows(f.nextTokenVersion) then None
      else Some(FileValue(f.nextTokenVersion + 1, f.users + [UserRecord(c.username, c.hash, f.nextTokenVersion, false)]))
    else if k < 0 then None
    else
      match c
      case Passwd(_, hash) => Some(f.(users := f.users[k := f.users[k].(passwordHash := hash)]))
      case SetDisabled(_, disabled) => Some(f.(users := f.users[k := f.users[k].(disabled := disabled)]))
      case Delete(_) => Some(f.(users := f.users[..k] + f.users[k + 1..]))
      case RevokeTokens(_) =>
        if Overflows(f.nextTokenVersion) then None
        else Some(FileValue(f.nextTokenVersion + 1, f.users[k := f.users[k].(tokenVersion := f.nextTokenVersion)]))
  }

  /** loadForWrite: a missing file is empty, an unreadable one panics. */
  ghost function Read(disk: Disk): Option<FileValue> {
    if disk.None? then Some(EMPTY_FILE) else LoadText(disk.value)
  }

  ghost function Run(disk: Disk, c: Command, writes: bool, quote: Quoter): (Disk, Exit) {
    if c.username == [] then (disk, Failure)
    else if Read(disk).None? then (disk, Panic)
    else
      var edited := Edited(Read(disk).value, c);
      if edited.None? || !ValidFile(edited.value) || !writes then (disk, Failure)
      else (Some(FileText(edited.value, quote)), Success)
  }

  class UsersDirectory {
    const quote: Quoter
    var disk: Disk

    constructor (disk: Disk, quote: Quoter)
      ensures this.disk == disk && this.quote == quote
    {
      this.disk := disk;
      this.quote := quote;
    }

    method LoadForWrite() returns (f: Option<FileValue>)
      ensures f == Read(disk)
    {
      if disk.None? {
        return Some(EMPTY_FILE);
      }
      f := Load(disk.value);
    }

    /** users.Save: whether the file was validated and written. */
    method Save(f: FileValue, writes: bool) returns (exit: Exit)
      requires f.nextTokenVersion <= MAX_INT64
      modifies this
      ensures (disk, exit) == if ValidFile(f) && writes then (Some(FileText(f, quote)), Success) else (old(disk), Failure)
    {
      hide ValidFile;
      var valid := Validate(f);
      if !valid {
        return Failure;
      }
      var text := MarshalUsersFile(f, quote);
      if !writes {
        return Failure;
      }
      disk := Some(text);
      exit := Success;
    }

    method CommandAddUser(username: gostring, hash: gostring, writes: bool) returns (exit: Exit)
      modifies this
      ensures (disk, exit) == Run(old(disk), Add(username, hash), writes, quote)
    {
      hide ValidFile, FileText, LoadText;
      if username == [] {
        return Failure;
      }
      var loaded := LoadForWrite();
      if loaded.None? {
        return Panic;
      }
      var next, users := loaded.value.nextTokenVersion, loaded.value.users;
      for i := 0 to |users|
        invariant forall j :: 0 <= j < i ==> users[j].username != username
        invariant disk == old(disk)
      {
        if users[i].username == username {
          return Failure;
        }
      }
      var tokenVersion := next;
      if tokenVersion <= 0 || tokenVersion == MAX_INT64 {
        return Failure;
      }
      users := users + [UserRecord(username, hash, tokenVersion, false)];
      var incremented := IncrementWatermark(next);
      if incremented.None? {
        assert false;
      }
      next := incremented.value;
      LoadedInRange(old(disk));
      exit := Save(FileValue(next, users), writes);
    }

    method CommandPasswd(username: gostring, hash: gostring, writes: bool) returns (exit: Exit)
      modifies this
      ensures (disk, exit) == Run(old(disk), Passwd(username, hash), writes, quote)
    {
      hide ValidFile, FileText, LoadText;
      if username == [] {
        return Failure;
      }
      var loaded := LoadForWrite();
      if loaded.None? {
        return Panic;
      }
      var users := loaded.value.users;
      var index := IndexOf(users, username);
      if index < 0 {
        return Failure;
      }
      users := users[index := users[index].(passwordHash := hash)];
      LoadedInRange(old(disk));
      exit := Save(FileValue(loaded.value.nextTokenVersion, users), writes);
    }

    method CommandSetDisabled(username: gostring, disabled: bool, writes: bool) returns (exit: Exit)
      modifies this
      ensures (disk, exit) == Run(old(disk), SetDisabled(username, disabled), writes, quote)
    {
      hide ValidFile, FileText, LoadText;
      if username == [] {
        return Failure;
      }
      var loaded := LoadForWrite();
      if loaded.None? {
        return Panic;
      }
      var users := loaded.value.users;
      var index := IndexOf(users, username);
      if index < 0 {
        return Failure;
      }
      users := users[index := users[index].(disabled := disabled)];
      LoadedInRange(old(disk));
      exit := Save(FileValue(loaded.value.nextTokenVersion, users), writes);
    }

    method CommandDeleteUser(username: gostring, writes: bool) returns (exit: Exit)
      modifies this
      ensures (disk, exit) == Run(old(disk), Delete(username), writes, quote)
    {
      hide ValidFile, FileText, LoadText;
      if username == [] {
        return Failure;
      }
      var loaded := LoadForWrite();
      if loaded.None? {
        return Panic;
      }
      var users := loaded.value.users;
      var index := IndexOf(users, username);
      if index < 0 {
        return Failure;
      }
      users := users[..index] + users[index + 1..];
      LoadedInRange(old(disk));
      exit := Save(FileValue(loaded.value.nextTokenVersion, users), writes);
    }

    method CommandRevokeTokens(username: gostring, writes: bool) returns (exit: Exit)
      modifies this
      ensures (disk, exit) == Run(old(disk), RevokeTokens(username), writes, quote)
    {
      hide ValidFile, FileText, LoadText;
      if username == [] {
        return Failure;
      }
      var loaded := LoadForWrite();
      if loaded.None? {
        return Panic;
      }
      var next, users := loaded.value.nextTokenVersion, loaded.value.users;
      var index := IndexOf(users, username);
      if index < 0 {
        return Failure;
      }
      var newVersion := next;
      if newVersion <= 0 || newVersion == MAX_INT64 {
        return Failure;
      }
      users := users[index := users[index].(tokenVersion := newVersion)];
      var incremented := IncrementWatermark(next);
      if incremented.None? {
        assert false;
      }
      next := incremented.value;
      LoadedInRange(old(disk));
      exit := Save(FileValue(next, users), writes);
    }
  }

  // What one command leaves to be read.

  lemma LoadedInRange(disk: Disk)
    ensures Read(disk).Some? ==> 0 < Read(disk).value.nextTokenVersion <= MAX_INT64
  {
    hide LoadText;
    ReadIsValid(disk);
  }

  lemma ReadIsValid(disk: Disk)
    ensures Read(disk).Some? ==> ValidFile(Read(disk).value) && NamesAreUtf8(Read(disk).value.users)
  {
    hide LoadText;
    if disk.Some? && LoadText(disk.value).Some? {
      LoadedIsValid(disk.value);
      LoadedNamesAreUtf8(disk.value);
    }
  }

  /** The command as the file remembers it: a name is stored with its invalid bytes replaced. */
  function Cleaned(c: Command): Command {
    if c.Add? then Add(Utf8.Sanitized(c.username), c.hash) else c
  }

  lemma IndexOfIs(users: seq<UserRecord>, name: gostring)
    ensures IndexOf(users, name) < 0 <==> forall i :: 0 <= i < |users| ==> users[i].username != name
  {
  }

  lemma EditedNames(f: FileValue, c: Command)
    requires !c.Add? && Edited(f, c).Some? && NamesAreUtf8(f.users)
    ensures NamesAreUtf8(Edited(f, c).value.users)
  {
    hide Utf8.ValidFrom;
  }

  lemma CleanAllAppend(users: seq<UserRecord>, u: UserRecord)
    requires NamesAreUtf8(users)
    ensures CleanAll(users + [u]) == users + [Clean(u)]
  {
    hide Utf8.Sanitized, Utf8.ValidFrom;
    CleanIdentity(users);
    var all := CleanAll(users + [u]);
    forall i | 0 <= i < |users| ensures all[i] == users[i] {
      assert CleanAll(users)[i] == Clean(users[i]);
    }
  }

  lemma DistinctAppend(users: seq<UserRecord>, u: UserRecord)
    requires DistinctNames(users)
    ensures DistinctNames(users + [u]) <==> IndexOf(users, u.username) < 0
  {
    IndexOfIs(users, u.username);
    if IndexOf(users, u.username) >= 0 {
      assert (users + [u])[IndexOf(users, u.username)].username == (users + [u])[|users|].username;
    }
  }

  /** A successful command leaves a file that reads as the edit under the cleaned name; when that edit is
      refused, because the cleaned name is taken, it leaves a file that nothing can read. */
  lemma SuccessReads(disk: Disk, c: Command, writes: bool, quote: Quoter)
    requires Quotes(quote) && Run(disk, c, writes, quote).1.Success?
    ensures Read(Run(disk, c, writes, quote).0) == Edited(Read(disk).value, Cleaned(c))
  {
    hide Quotes, FileText, LoadText, ValidUser, Utf8.Sanitized, Utf8.ValidFrom, IndexOf;
    var f := Read(disk).value;
    var e := Edited(f, c).value;
    ReadIsValid(disk);
    LoadOfPrinted(e, quote);
    if c.Add? {
      var u := UserRecord(c.username, c.hash, f.nextTokenVersion, false);
      CleanAllAppend(f.users, u);
      DistinctAppend(f.users, Clean(u));
    } else {
      EditedNames(f, c);
      CleanIdentity(e.users);
    }
  }

  /** A command that does not succeed leaves the bytes alone. */
  lemma OthersChangeNothing(disk: Disk, c: Command, writes: bool, quote: Quoter)
    ensures !Run(disk, c, writes, quote).1.Success? ==> Run(disk, c, writes, quote).0 == disk
  {
    hide LoadText, FileText, ValidFile;
  }

  /** A command about to make the file unreadable: it can add a user whose name is new, but whose name without its
      invalid bytes is taken. */
  ghost predicate Breaks(f: FileValue, c: Command, writes: bool) {
    && c.Add? && writes
    && !Utf8.IsBlank(c.username) && IsArgon2Hash(c.hash)
    && IndexOf(f.users, c.username) < 0 && IndexOf(f.users, Utf8.Sanitized(c.username)) >= 0
    && f.nextTokenVersion < MAX_INT64
  }

  /** When adding a user succeeds. */
  lemma AddSucceeds(disk: Disk, username: gostring, hash: gostring, writes: bool, quote: Quoter)
    requires Read(disk).Some?
    ensures var f := Read(disk).value;
            Run(disk, Add(username, hash), writes, quote).1.Success? <==>
            writes && !Utf8.IsBlank(username) && IsArgon2Hash(hash) && IndexOf(f.users, username) < 0 && f.nextTokenVersion < MAX_INT64
  {
    hide LoadText, FileText, IsArgon2Hash, Utf8.IsBlank, IndexOf;
    ReadIsValid(disk);
    var f := Read(disk).value;
    if username == [] {
      EmptyIsBlank();
    } else if Edited(f, Add(username, hash)).Some? {
      AddedIsValid(f, UserRecord(username, hash, f.nextTokenVersion, false));
    }
  }

  lemma EmptyIsBlank()
    ensures Utf8.IsBlank([])
  {
  }

  lemma AddedIsValid(f: FileValue, u: UserRecord)
    requires ValidFile(f) && IndexOf(f.users, u.username) < 0 && u.tokenVersion == f.nextTokenVersion < MAX_INT64
    ensures ValidFile(FileValue(f.nextTokenVersion + 1, f.users + [u])) <==> !Utf8.IsBlank(u.username) && IsArgon2Hash(u.passwordHash)
  {
    hide IsArgon2Hash, Utf8.IsBlank, IndexOf;
    DistinctAppend(f.users, u);
    var g := FileValue(f.nextTokenVersion + 1, f.users + [u]);
    forall i | 0 <= i < |f.users| ensures ValidUser(g.users[i], g.nextTokenVersion) {
      assert ValidUser(f.users[i], f.nextTokenVersion);
    }
    assert g.users[|f.users|] == u;
  }

  /** A command leaves a readable file unreadable exactly when the file and the command say so beforehand. */
  lemma StaysReadable(disk: Disk, c: Command, writes: bool, quote: Quoter)
    requires Quotes(quote) && Read(disk).Some?
    ensures Read(Run(disk, c, writes, quote).0).Some? <==> !Breaks(Read(disk).value, c, writes)
  {
    hide Quotes, LoadText, FileText, ValidFile, Utf8.Sanitized, Utf8.IsBlank, IsArgon2Hash, IndexOf;
    ReadIsValid(disk);
    LoadedInRange(disk);
    if c.Add? { AddSucceeds(disk, c.username, c.hash, writes, quote); }
    if Run(disk, c, writes, quote).1.Success? { SuccessReads(disk, c, writes, quote); }
  }

  /** It can happen from nothing: two names that differ only in their one invalid byte. */
  lemma TwoAddsBreakTheFile(hash: gostring, quote: Quoter)
    requires Quotes(quote) && IsArgon2Hash(hash)
    ensures var (disk, first) := Run(None, Add([0xFF], hash), true, quote);
            var (disk', second) := Run(disk, Add([0xFE], hash), true, quote);
            first.Success? && Read(disk).Some? && second.Success? && Read(disk').None?
  {
    hide Quotes, LoadText, FileText, ValidFile, IsArgon2Hash, Run;
    InvalidBytesAreNames();
    AddSucceeds(None, [0xFF], hash, true, quote);
    SuccessReads(None, Add([0xFF], hash), true, quote);
    var disk := Run(None, Add([0xFF], hash), true, quote).0;
    var f := Read(disk).value;
    assert f == FileValue(2, [UserRecord(Utf8.Sanitized([0xFF]), hash, 1, false)]);
    IndexOfIs(f.users, [0xFE]);
    IndexOfIs(f.users, Utf8.Sanitized([0xFE]));
    hide IndexOf, Utf8.Sanitized, Utf8.IsBlank;
    assert f.users[0].username == Utf8.Sanitized([0xFE]);
    AddSucceeds(disk, [0xFE], hash, true, quote);
    StaysReadable(disk, Add([0xFE], hash), true, quote);
  }

  lemma InvalidBytesAreNames()
    ensures Utf8.Sanitized([0xFF]) == Utf8.Sanitized([0xFE]) == Utf8.EncodeRune(Utf8.RUNE_ERROR)
    ensures Utf8.Sanitized([0xFE]) != [0xFE]
    ensures !Utf8.IsBlank([0xFF]) && !Utf8.IsBlank([0xFE])
  {
    var runes := [Utf8.RUNE_ERROR];
    assert Utf8.Runes([0xFF]) == runes == Utf8.Runes([0xFE]);
    assert Utf8.EncodeAll(runes) == Utf8.EncodeRune(Utf8.RUNE_ERROR) + Utf8.EncodeAll(runes[1..]);
    assert !Utf8.IsSpace(Utf8.Runes([0xFF])[0]) && !Utf8.IsSpace(Utf8.Runes([0xFE])[0]);
  }

  /** A name of valid UTF-8 never makes the file unreadable. */
  lemma ValidNamesAreSafe(disk: Disk, c: Command, writes: bool, quote: Quoter)
    requires Quotes(quote) && Read(disk).Some? && (c.Add? ==> Utf8.Valid(c.username))
    ensures Read(Run(disk, c, writes, quote).0).Some?
  {
    hide Quotes, LoadText, FileText, ValidFile, Utf8.Sanitized, Utf8.ValidFrom, Utf8.IsBlank, IsArgon2Hash, Run;
    if c.Add? { Utf8.SanitizedIdentity(c.username); }
    StaysReadable(disk, c, writes, quote);
  }

  // Whole runs.

  datatype Call = Call(command: Command, writes: bool)

  ghost function RunAll(disk: Disk, calls: seq<Call>, quote: Quoter): Disk
    decreases |calls|
  {
    hide Run;
    if calls == [] then disk
    else RunAll(Run(disk, calls[0].command, calls[0].writes, quote).0, calls[1..], quote)
  }

  predicate Removes(c: Command, username: gostring) {
    (c.Delete? || c.RevokeTokens?) && c.username == username
  }

  /** Some call of the run deleted the user or revoked its tokens. */
  ghost predicate Removed(disk: Disk, calls: seq<Call>, username: gostring, quote: Quoter)
    decreases |calls|
  {
    hide Run;
    calls != [] &&
    var (next, exit) := Run(disk, calls[0].command, calls[0].writes, quote);
    (exit.Success? && Removes(calls[0].command, username)) || Removed(next, calls[1..], username, quote)
  }

  /** The user holds this token version. */
  ghost predicate Holds(f: FileValue, username: gostring, version: int) {
    exists i :: 0 <= i < |f.users| && f.users[i].username == username && f.users[i].tokenVersion == version
  }

  lemma HoldsAtIndex(f: FileValue, username: gostring, version: int)
    requires DistinctNames(f.users)
    ensures Holds(f, username, version) <==>
            IndexOf(f.users, username) >= 0 && f.users[IndexOf(f.users, username)].tokenVersion == version
  {
  }

  /** One edit: versions already given out are neither taken from nor given to anyone, except that deleting
      and revoking take the user's. */
  lemma EditKeepsVersions(f: FileValue, c: Command, username: gostring, version: int)
    requires ValidFile(f) && version < f.nextTokenVersion && Edited(f, c).Some?
    ensures var f' := Edited(f, c).value;
            Holds(f', username, version) <==> Holds(f, username, version) && !Removes(c, username)
  {
    hide ValidUser, Edited;
    if Holds(f, username, version) && !Removes(c, username) { EditKeeps(f, c, username, version); }
    if Holds(Edited(f, c).value, username, version) { EditGivesNothingOld(f, c, username, version); }
  }

  lemma EditKeeps(f: FileValue, c: Command, username: gostring, version: int)
    requires Edited(f, c).Some? && Holds(f, username, version) && !Removes(c, username)
    ensures Holds(Edited(f, c).value, username, version)
  {
    var i :| 0 <= i < |f.users| && f.users[i].username == username && f.users[i].tokenVersion == version;
    EditMoves(f, c, i);
    hide Edited, IndexOf;
    var i' := MovedTo(f, c, i);
    assert Edited(f, c).value.users[i'].username == username && Edited(f, c).value.users[i'].tokenVersion == version;
  }

  /** Where user `i` stands after the edit. */
  ghost function MovedTo(f: FileValue, c: Command, i: int): int {
    if c.Delete? && i > IndexOf(f.users, c.username) then i - 1 else i
  }

  lemma EditMoves(f: FileValue, c: Command, i: int)
    requires Edited(f, c).Some? && 0 <= i < |f.users| && !Removes(c, f.users[i].username)
    ensures var f', i' := Edited(f, c).value, MovedTo(f, c, i);
            && 0 <= i' < |f'.users|
            && f'.users[i'].username == f.users[i].username && f'.users[i'].tokenVersion == f.users[i].tokenVersion
  {
    var k := IndexOf(f.users, c.username);
    assert k >= 0 ==> f.users[k].username == c.username;
    hide IndexOf;
  }

  lemma EditGivesNothingOld(f: FileValue, c: Command, username: gostring, version: int)
    requires DistinctNames(f.users) && version < f.nextTokenVersion && Edited(f, c).Some?
    requires Holds(Edited(f, c).value, username, version)
    ensures Holds(f, username, version) && !Removes(c, username)
  {
    var f', k := Edited(f, c).value, IndexOf(f.users, c.username);
    hide IndexOf;
    var j :| 0 <= j < |f'.users| && f'.users[j].username == username && f'.users[j].tokenVersion == version;
    var j' := if c.Delete? && j >= k then j + 1 else j;
    assert j' < |f.users| && f.users[j'].username == username && f.users[j'].tokenVersion == version;
  }

  ghost function RecordOf(f: FileValue, username: gostring): Option<UserRecord> {
    if IndexOf(f.users, username) >= 0 then Some(f.users[IndexOf(f.users, username)]) else None
  }

  lemma RecordAt(f: FileValue, i: int)
    requires DistinctNames(f.users) && 0 <= i < |f.users|
    ensures RecordOf(f, f.users[i].username) == Some(f.users[i])
  {
  }

  lemma NoRecord(f: FileValue, username: gostring)
    ensures RecordOf(f, username).None? <==> forall i :: 0 <= i < |f.users| ==> f.users[i].username != username
  {
  }

  /** An edit changes the named user as the command says and leaves every other user as it was. */
  lemma EditChangesOneUser(f: FileValue, c: Command, username: gostring)
    requires DistinctNames(f.users) && Edited(f, c).Some?
    ensures DistinctNames(Edited(f, c).value.users)
    ensures var before, after := RecordOf(f, username), RecordOf(Edited(f, c).value, username);
            if username != c.username then after == before
            else match c
              case Add(_, hash) => before.None? && after == Some(UserRecord(username, hash, f.nextTokenVersion, false))
              case Passwd(_, hash) => before.Some? && after == Some(before.value.(passwordHash := hash))
              case SetDisabled(_, disabled) => before.Some? && after == Some(before.value.(disabled := disabled))
              case Delete(_) => before.Some? && after.None?
              case RevokeTokens(_) => before.Some? && after == Some(before.value.(tokenVersion := f.nextTokenVersion))
  {
    var f', k := Edited(f, c).value, IndexOf(f.users, c.username);
    EditDistinct(f, c);
    hide Edited, RecordOf;
    if username == c.username {
      EditHere(f, c);
    } else if RecordOf(f, username).Some? {
      EditElsewhere(f, c, username);
    } else {
      NoRecord(f, username);
      EditNamesNoOneElse(f, c, username);
      NoRecord(f', username);
    }
  }

  lemma EditDistinct(f: FileValue, c: Command)
    requires DistinctNames(f.users) && Edited(f, c).Some?
    ensures DistinctNames(Edited(f, c).value.users)
  {
    hide IndexOf;
    IndexOfIs(f.users, c.username);
  }

  lemma EditHere(f: FileValue, c: Command)
    requires DistinctNames(f.users) && Edited(f, c).Some? && DistinctNames(Edited(f, c).value.users)
    ensures var before, after := RecordOf(f, c.username), RecordOf(Edited(f, c).value, c.username);
            match c
              case Add(_, hash) => before.None? && after == Some(UserRecord(c.username, hash, f.nextTokenVersion, false))
              case Passwd(_, hash) => before.Some? && after == Some(before.value.(passwordHash := hash))
              case SetDisabled(_, disabled) => before.Some? && after == Some(before.value.(disabled := disabled))
              case Delete(_) => before.Some? && after.None?
              case RevokeTokens(_) => before.Some? && after == Some(before.value.(tokenVersion := f.nextTokenVersion))
  {
    var f', k := Edited(f, c).value, IndexOf(f.users, c.username);
    if c.Delete? {
      forall i | 0 <= i < |f'.users| ensures f'.users[i].username != c.username {
        var i' := if i >= k then i + 1 else i;
        assert f'.users[i] == f.users[i'];
      }
      NoRecord(f', c.username);
    } else {
      RecordAt(f', if c.Add? then |f.users| else k);
    }
  }

  lemma EditElsewhere(f: FileValue, c: Command, username: gostring)
    requires DistinctNames(f.users) && Edited(f, c).Some? && DistinctNames(Edited(f, c).value.users)
    requires username != c.username && RecordOf(f, username).Some?
    ensures RecordOf(Edited(f, c).value, username) == RecordOf(f, username)
  {
    var f', k, i := Edited(f, c).value, IndexOf(f.users, c.username), IndexOf(f.users, username);
    var i' := if c.Delete? && i > k then i - 1 else i;
    assert f'.users[i'] == f.users[i];
    RecordAt(f', i');
  }

  lemma EditNamesNoOneElse(f: FileValue, c: Command, username: gostring)
    requires Edited(f, c).Some? && username != c.username
    requires forall i :: 0 <= i < |f.users| ==> f.users[i].username != username
    ensures forall i :: 0 <= i < |Edited(f, c).value.users| ==> Edited(f, c).value.users[i].username != username
  {
    hide IndexOf;
  }

  /** An unreadable file is never repaired. */
  lemma {:induction false} UnreadableStays(disk: Disk, calls: seq<Call>, quote: Quoter)
    requires Read(disk).None?
    ensures RunAll(disk, calls, quote) == disk
    decreases |calls|
  {
    hide LoadText, FileText, ValidFile;
    if calls != [] { UnreadableStays(disk, calls[1..], quote); }
  }

  /** Over every run: the watermark never falls and never overflows, the file stays valid, and a user still
      holds a version given out before exactly if it held it then and was neither deleted nor revoked since. */
  lemma {:induction false} RunsKeepVersions(disk: Disk, calls: seq<Call>, username: gostring, version: int, quote: Quoter)
    requires Quotes(quote) && Read(disk).Some? && version < Read(disk).value.nextTokenVersion
    requires Read(RunAll(disk, calls, quote)).Some?
    ensures var f, f' := Read(disk).value, Read(RunAll(disk, calls, quote)).value;
            && f.nextTokenVersion <= f'.nextTokenVersion <= MAX_INT64
            && ValidFile(f')
            && (Holds(f', username, version) <==> Holds(f, username, version) && !Removed(disk, calls, username, quote))
    decreases |calls|
  {
    hide Quotes, Read, Run, ValidFile, Holds, Edited;
    LoadedInRange(disk);
    ReadIsValid(disk);
    if calls != [] {
      var (c, w) := (calls[0].command, calls[0].writes);
      var next := Run(disk, c, w, quote).0;
      if Read(next).None? {
        UnreadableStays(next, calls[1..], quote);
        assert false;
      } else {
        OneStep(disk, c, w, username, version, quote);
        RunsKeepVersions(next, calls[1..], username, version, quote);
      }
    }
  }

  lemma OneStep(disk: Disk, c: Command, writes: bool, username: gostring, version: int, quote: Quoter)
    requires Quotes(quote) && Read(disk).Some? && version < Read(disk).value.nextTokenVersion
    requires Read(Run(disk, c, writes, quote).0).Some?
    ensures var (disk', exit) := Run(disk, c, writes, quote);
            var f, f' := Read(disk).value, Read(disk').value;
            && f.nextTokenVersion <= f'.nextTokenVersion
            && (Holds(f', username, version) <==>
                Holds(f, username, version) && !(exit.Success? && Removes(c, username)))
  {
    hide Quotes, Read, ValidFile, Holds, Run, Edited;
    OthersChangeNothing(disk, c, writes, quote);
    ReadIsValid(disk);
    if Run(disk, c, writes, quote).1.Success? {
      SuccessReads(disk, c, writes, quote);
      EditKeepsVersions(Read(disk).value, Cleaned(c), username, version);
    }
  }

  /** With valid UTF-8 names no run makes the file unreadable. */
  lemma {:induction false} RunsStayReadable(disk: Disk, calls: seq<Call>, quote: Quoter)
    requires Quotes(quote) && Read(disk).Some?
    requires forall i :: 0 <= i < |calls| && calls[i].command.Add? ==> Utf8.Valid(calls[i].command.username)
    ensures Read(RunAll(disk, calls, quote)).Some?
    decreases |calls|
  {
    hide Quotes, Read, Run, Utf8.ValidFrom;
    if calls != [] {
      ValidNamesAreSafe(disk, calls[0].command, calls[0].writes, quote);
      RunsStayReadable(Run(disk, calls[0].command, calls[0].writes, quote).0, calls[1..], quote);
    }
  }

  // Tokens against the files of later days.

  lemma AdmitsIsHolds(f: FileValue, p: Tokens.TokenPayload, now: int, lookup: Lookup)
    requires DistinctNames(f.users) && IsLookup(lookup, f.users)
    ensures Tokens.Admits(p, now, lookup) <==>
            && Holds(f, p.subject, p.version) && !f.users[IndexOf(f.users, p.subject)].disabled
            && p.issuedAtUnix < p.expiresAtUnix && Tokens.Unix(now) < p.expiresAtUnix
  {
    HoldsAtIndex(f, p.subject, p.version);
  }

  /** Revocation is permanent: of a version given out by the first file, no token verifies against the lookup
      of a later file once its user was deleted or revoked, even if the name was added again. And otherwise it
      keeps verifying, until it expires, whenever the user is not disabled. */
  lemma RevocationIsPermanent(disk: Disk, calls: seq<Call>, quote: Quoter, lookup: Lookup, now: int,
                              p: Tokens.TokenPayload)
    requires Quotes(quote) && Read(disk).Some? && Read(RunAll(disk, calls, quote)).Some?
    requires Holds(Read(disk).value, p.subject, p.version)
    requires IsLookup(lookup, Read(RunAll(disk, calls, quote)).value.users)
    ensures Tokens.Admits(p, now, lookup) <==>
            && !Removed(disk, calls, p.subject, quote)
            && (p.subject in lookup && !lookup[p.subject].disabled)
            && p.issuedAtUnix < p.expiresAtUnix && Tokens.Unix(now) < p.expiresAtUnix
  {
    hide Quotes, Read, RunAll, Removed;
    var f, f' := Read(disk).value, Read(RunAll(disk, calls, quote)).value;
    ReadIsValid(disk);
    HeldIsGivenOut(f, p.subject, p.version);
    RunsKeepVersions(disk, calls, p.subject, p.version, quote);
    AdmitsIsHolds(f', p, now, lookup);
  }

  lemma HeldIsGivenOut(f: FileValue, username: gostring, version: int)
    requires ValidFile(f) && Holds(f, username, version)
    ensures version < f.nextTokenVersion
  {
    var i :| 0 <= i < |f.users| && f.users[i].username == username && f.users[i].tokenVersion == version;
    assert ValidUser(f.users[i], f.nextTokenVersion);
  }

  /** The same of token strings: a removed user's old tokens are refused, whoever presents whatever bytes. */
  lemma RemovedTokensAreRefused(disk: Disk, calls: seq<Call>, quote: Quoter, lookup: Lookup, now: int,
                                token: gostring, secret: gostring, prim: Tokens.Primitives)
    requires Quotes(quote) && Read(disk).Some? && Read(RunAll(disk, calls, quote)).Some?
    requires IsLookup(lookup, Read(RunAll(disk, calls, quote)).value.users)
    requires Tokens.TryVerify(token, secret, now, lookup, prim).Some?
    ensures var p := Tokens.TryVerify(token, secret, now, lookup, prim).value;
            Holds(Read(disk).value, p.subject, p.version) ==> !Removed(disk, calls, p.subject, quote)
  {
    hide Quotes, Read, RunAll, Removed, Tokens.TryVerify, Tokens.Admits, IsLookup;
    Tokens.AcceptedIsSigned(token, secret, now, lookup, prim);
    var p := Tokens.TryVerify(token, secret, now, lookup, prim).value;
    if Holds(Read(disk).value, p.subject, p.version) {
      RevocationIsPermanent(disk, calls, quote, lookup, now, p);
    }
  }
}
