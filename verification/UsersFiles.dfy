/** users.json: validation, strict loading, printing, and the lookup table (internal/users/users.go).
    `quote` stands for encoding/json's string marshalling. */
module UsersFiles {
  import opened Base
  import opened JsonScanner
  import Strconv
  import Utf8

  datatype UserRecord = UserRecord(username: gostring, passwordHash: gostring, tokenVersion: int, disabled: bool)

  datatype FileValue = FileValue(nextTokenVersion: int, users: seq<UserRecord>)

  /** What Load answers for a missing file. */
  const EMPTY_FILE := FileValue(1, [])

  // The Argon2id hash pattern: literals, digit runs and base64 runs, none of which can run into the next.

  predicate IsBase64(c: byte) {
    0x41 <= c <= 0x5A || 0x61 <= c <= 0x7A || IsDigit(c) || c == 0x2B || c == 0x2F || c == 0x3D
  }

  function SkipBase64(s: gostring, pos: nat): (next: nat)
    requires pos <= |s|
    ensures pos <= next <= |s|
    ensures forall i :: pos <= i < next ==> IsBase64(s[i])
    decreases |s| - pos
  {
    if pos < |s| && IsBase64(s[pos]) then SkipBase64(s, pos + 1) else pos
  }

  const AFTER_ID: gostring := [0x24, 0x61, 0x72, 0x67, 0x6F, 0x6E, 0x32, 0x69, 0x64, 0x24, 0x76, 0x3D]
  const AFTER_V: gostring := [0x24, 0x6D, 0x3D]
  const AFTER_M: gostring := [0x2C, 0x74, 0x3D]
  const AFTER_T: gostring := [0x2C, 0x70, 0x3D]
  const DOLLAR: gostring := [0x24]

  /** A literal and then a non-empty run of digits. */
  function LiteralThenDigits(s: gostring, pos: nat, literal: gostring): (r: Option<nat>)
    requires pos <= |s|
    ensures r.Some? ==> pos < r.value <= |s|
  {
    if !Utf8.At(s, pos, literal) || SkipDigits(s, pos + |literal|) == pos + |literal| then None
    else Some(SkipDigits(s, pos + |literal|))
  }

  function DollarThenBase64(s: gostring, pos: nat): (r: Option<nat>)
    requires pos <= |s|
    ensures r.Some? ==> pos < r.value <= |s|
  {
    if !Utf8.At(s, pos, DOLLAR) || SkipBase64(s, pos + 1) == pos + 1 then None else Some(SkipBase64(s, pos + 1))
  }

  /** argon2HashRe.MatchString */
  predicate IsArgon2Hash(s: gostring) {
    var v := LiteralThenDigits(s, 0, AFTER_ID);
    v.Some? &&
    var m := LiteralThenDigits(s, v.value, AFTER_V);
    m.Some? &&
    var t := LiteralThenDigits(s, m.value, AFTER_M);
    t.Some? &&
    var p := LiteralThenDigits(s, t.value, AFTER_T);
    p.Some? &&
    var salt := DollarThenBase64(s, p.value);
    salt.Some? &&
    DollarThenBase64(s, salt.value) == Some(|s|)
  }

  lemma PartIsAscii(s: gostring, pos: nat, literal: gostring)
    requires pos <= |s| && LiteralThenDigits(s, pos, literal).Some?
    requires forall i :: 0 <= i < |literal| ==> literal[i] < 0x80
    ensures forall i :: pos <= i < LiteralThenDigits(s, pos, literal).value ==> s[i] < 0x80
  {
    Utf8.AtIndex(s, pos, literal);
    forall i | pos <= i < pos + |literal| ensures s[i] < 0x80 {
      assert s[pos + (i - pos)] == literal[i - pos];
    }
  }

  lemma Base64PartIsAscii(s: gostring, pos: nat)
    requires pos <= |s| && DollarThenBase64(s, pos).Some?
    ensures forall i :: pos <= i < DollarThenBase64(s, pos).value ==> s[i] < 0x80
  {
    Utf8.AtByte(s, pos, 0x24);
  }

  lemma HashIsAscii(s: gostring)
    requires IsArgon2Hash(s)
    ensures Utf8.Valid(s)
  {
    hide LiteralThenDigits, DollarThenBase64;
    var v := LiteralThenDigits(s, 0, AFTER_ID).value;
    var m := LiteralThenDigits(s, v, AFTER_V).value;
    var t := LiteralThenDigits(s, m, AFTER_M).value;
    var p := LiteralThenDigits(s, t, AFTER_T).value;
    var salt := DollarThenBase64(s, p).value;
    PartIsAscii(s, 0, AFTER_ID);
    PartIsAscii(s, v, AFTER_V);
    PartIsAscii(s, m, AFTER_M);
    PartIsAscii(s, t, AFTER_T);
    Base64PartIsAscii(s, p);
    Base64PartIsAscii(s, salt);
    Utf8.AsciiIsValid(s, 0);
  }

  // Validation and lookup.

  predicate ValidUser(u: UserRecord, nextTokenVersion: int) {
    && !Utf8.IsBlank(u.username)
    && 0 < u.tokenVersion < nextTokenVersion
    && IsArgon2Hash(u.passwordHash)
  }

  ghost predicate DistinctNames(users: seq<UserRecord>) {
    forall i, j :: 0 <= i < j < |users| ==> users[i].username != users[j].username
  }

  ghost predicate ValidFile(f: FileValue) {
    && 0 < f.nextTokenVersion <= MAX_INT64
    && DistinctNames(f.users)
    && (forall i :: 0 <= i < |f.users| ==> ValidUser(f.users[i], f.nextTokenVersion))
  }

  /** Position of the user of that name, or -1. */
  function IndexOf(users: seq<UserRecord>, username: gostring): (k: int)
    ensures -1 <= k < |users|
    ensures k >= 0 ==> users[k].username == username
    ensures forall i :: 0 <= i < (if k < 0 then |users| else k) ==> users[i].username != username
  {
    if users == [] then -1
    else if users[0].username == username then 0
    else
      var k := IndexOf(users[1..], username);
      if k < 0 then -1 else k + 1
  }

  method Validate(f: FileValue) returns (ok: bool)
    requires f.nextTokenVersion <= MAX_INT64
    ensures ok <==> ValidFile(f)
  {
    hide Utf8.IsBlank, IsArgon2Hash;
    if f.nextTokenVersion <= 0 {
      return false;
    }
    var seen: set<gostring> := {};
    for i := 0 to |f.users|
      invariant forall name :: name in seen <==> exists j :: 0 <= j < i && f.users[j].username == name
      invariant DistinctNames(f.users[..i])
      invariant forall j :: 0 <= j < i ==> ValidUser(f.users[j], f.nextTokenVersion)
    {
      var user := f.users[i];
      if Utf8.IsBlank(user.username) {
        return false;
      }
      if user.username in seen {
        return false;
      }
      seen := seen + {user.username};
      if user.tokenVersion <= 0 || user.tokenVersion >= f.nextTokenVersion {
        return false;
      }
      if !IsArgon2Hash(user.passwordHash) {
        return false;
      }
    }
    assert f.users[..|f.users|] == f.users;
    ok := true;
  }

  type Lookup = map<gostring, UserRecord>

  /** The table of a valid list: exactly its users, under their names. */
  ghost predicate IsLookup(lookup: Lookup, users: seq<UserRecord>) {
    && (forall name :: name in lookup ==> IndexOf(users, name) >= 0 && lookup[name] == users[IndexOf(users, name)])
    && (forall i :: 0 <= i < |users| ==> users[i].username in lookup)
  }

  method BuildLookup(users: seq<UserRecord>) returns (lookup: Lookup)
    requires DistinctNames(users)
    ensures IsLookup(lookup, users)
  {
    lookup := map[];
    for i := 0 to |users|
      invariant forall j :: 0 <= j < i ==> users[j].username in lookup && lookup[users[j].username] == users[j]
      invariant forall name :: name in lookup ==> exists j :: 0 <= j < i && users[j].username == name
    {
      lookup := lookup[users[i].username := users[i]];
    }
    forall name | name in lookup ensures IndexOf(users, name) >= 0 && lookup[name] == users[IndexOf(users, name)] {
      var j :| 0 <= j < |users| && users[j].username == name;
      assert IndexOf(users, name) == j;
    }
  }

  // Loading.

  const NEXT_KEY: gostring := Ascii("nextTokenVersion")
  const USERS_KEY: gostring := Ascii("users")
  const NAME_KEY: gostring := Ascii("username")
  const HASH_KEY: gostring := Ascii("passwordHash")
  const VERSION_KEY: gostring := Ascii("tokenVersion")
  const DISABLED_KEY: gostring := Ascii("disabled")

  method HasUniqueProperties(members: seq<Member>, known: seq<gostring>) returns (ok: bool)
    ensures ok <==> UniqueKnown(members, known)
  {
    var knownSet := set k | k in known;
    var seen: set<gostring> := {};
    for i := 0 to |members|
      invariant forall key :: key in seen <==> exists j :: 0 <= j < i && members[j].key == key
      invariant UniqueKnown(members[..i], known)
    {
      if members[i].key !in knownSet {
        return false;
      }
      if members[i].key in seen {
        return false;
      }
      seen := seen + {members[i].key};
    }
    assert members[..|members|] == members;
    ok := true;
  }

  /** One entry, if it has exactly the four members with the right types and a 64-bit version. */
  ghost function UserOf(n: Node): Option<UserRecord> {
    if !n.Object? || !UniqueKnown(n.members, [NAME_KEY, HASH_KEY, VERSION_KEY, DISABLED_KEY]) then None
    else
      var name, hash, version, disabled := Get(n, NAME_KEY), Get(n, HASH_KEY), Get(n, VERSION_KEY), Get(n, DISABLED_KEY);
      if name.Some? && name.value.Str? && hash.Some? && hash.value.Str? && version.Some? && version.value.Number?
         && disabled.Some? && disabled.value.Bool? && Strconv.ParseInt(version.value.raw).Some? then
        Some(UserRecord(name.value.str, hash.value.str, Strconv.ParseInt(version.value.raw).value, disabled.value.boolean))
      else None
  }

  ghost function UsersOf(items: seq<Node>): Option<seq<UserRecord>> {
    if items == [] then Some([])
    else
      var first, rest := UserOf(items[|items| - 1]), UsersOf(items[..|items| - 1]);
      if first.None? || rest.None? then None else Some(rest.value + [first.value])
  }

  ghost function FileOf(root: Node): Option<FileValue> {
    if !root.Object? || !UniqueKnown(root.members, [NEXT_KEY, USERS_KEY]) then None
    else
      var next, users := Get(root, NEXT_KEY), Get(root, USERS_KEY);
      if next.None? || !next.value.Number? || Strconv.ParseInt(next.value.raw).None? || users.None? || !users.value.Array?
      then None
      else
        var list := UsersOf(users.value.items);
        if list.None? then None
        else
          var f := FileValue(Strconv.ParseInt(next.value.raw).value, list.value);
          if ValidFile(f) then Some(f) else None
  }

  /** What Load answers for the bytes of an existing file. */
  ghost function LoadText(raw: gostring): Option<FileValue> {
    match DecodeText(raw, 4)
    case None => None
    case Some(root) => FileOf(root)
  }

  method Load(raw: gostring) returns (r: Option<FileValue>)
    ensures r == LoadText(raw)
  {
    var root := Decode(raw, 4);
    if root.None? || !root.value.Object? {
      return None;
    }
    var unique := HasUniqueProperties(root.value.members, [NEXT_KEY, USERS_KEY]);
    if !unique {
      return None;
    }
    r := LoadRoot(root.value);
  }

  method LoadRoot(root: Node) returns (r: Option<FileValue>)
    requires root.Object? && UniqueKnown(root.members, [NEXT_KEY, USERS_KEY])
    ensures r == FileOf(root)
  {
    hide UserOf, ValidFile, UniqueKnown, Strconv.ParseInt;
    var watermark := Get(root, NEXT_KEY);
    if watermark.None? || !watermark.value.Number? {
      return None;
    }
    var next := Strconv.ParseInt(watermark.value.raw);
    if next.None? {
      return None;
    }
    var users := Get(root, USERS_KEY);
    if users.None? || !users.value.Array? {
      return None;
    }
    var items := users.value.items;
    var loaded: seq<UserRecord> := [];
    for i := 0 to |items|
      invariant UsersOf(items[..i]) == Some(loaded)
    {
      assert items[..i + 1][..i] == items[..i];
      var user := LoadUser(items[i]);
      if user.None? {
        UsersOfPrefix(items, i + 1);
        return None;
      }
      loaded := loaded + [user.value];
    }
    assert items[..|items|] == items;
    var f := FileValue(next.value, loaded);
    var ok := Validate(f);
    r := if ok then Some(f) else None;
  }

  lemma {:induction false} UsersOfPrefix(items: seq<Node>, i: nat)
    requires i <= |items| && UsersOf(items[..i]).None?
    ensures UsersOf(items).None?
    decreases |items|
  {
    if i == |items| {
      assert items[..i] == items;
    } else {
      var front := items[..|items| - 1];
      assert front[..i] == items[..i];
      UsersOfPrefix(front, i);
    }
  }

  method LoadUser(n: Node) returns (r: Option<UserRecord>)
    ensures r == UserOf(n)
  {
    hide Strconv.ParseInt;
    if !n.Object? {
      return None;
    }
    var unique := HasUniqueProperties(n.members, [NAME_KEY, HASH_KEY, VERSION_KEY, DISABLED_KEY]);
    if !unique {
      return None;
    }
    hide UniqueKnown;
    var name, hash := Get(n, NAME_KEY), Get(n, HASH_KEY);
    var version, disabled := Get(n, VERSION_KEY), Get(n, DISABLED_KEY);
    if name.None? || !name.value.Str? || hash.None? || !hash.value.Str? ||
       version.None? || !version.value.Number? || disabled.None? || !disabled.value.Bool? {
      return None;
    }
    var parsed := Strconv.ParseInt(version.value.raw);
    if parsed.None? {
      return None;
    }
    r := Some(UserRecord(name.value.str, hash.value.str, parsed.value, disabled.value.boolean));
  }
}
