/** Load against Save: what is read back of a printed users.json, and when Load refuses it
    (internal/users/users.go). */
module UsersRoundTrip {
  import opened Base
  import opened JsonScanner
  import opened JsonGrammar
  import opened UsersFiles
  import opened UsersPrinting
  import opened MemberSets
  import Strconv
  import Utf8

  /** A record as it comes back: invalid bytes of the name have become U+FFFD. */
  function Clean(u: UserRecord): UserRecord {
    u.(username := Utf8.Sanitized(u.username))
  }

  function CleanAll(users: seq<UserRecord>): seq<UserRecord> {
    seq(|users|, i requires 0 <= i < |users| => Clean(users[i]))
  }

  function CleanFile(f: FileValue): FileValue {
    f.(users := CleanAll(f.users))
  }

  ghost predicate NamesAreUtf8(users: seq<UserRecord>) {
    forall i :: 0 <= i < |users| ==> Utf8.Valid(users[i].username)
  }

  lemma PrintedDecodes(f: FileValue, quote: Quoter)
    requires Quotes(quote)
    ensures DecodeText(FileText(f, quote), 4) == Some(FileNode(f))
  {
    hide WellFormed, Denotes, Depth, Bytes, FileNode, FileCst, DecodeText;
    FileCstIsRight(f, quote);
    var t := Text([], FileCst(f, quote), []);
    assert TextBytes(t) == FileText(f, quote);
    TextAccepted(t, FileText(f, quote), 4);
  }

  lemma KeysDiffer()
    ensures NEXT_KEY != USERS_KEY
    ensures NAME_KEY != HASH_KEY && NAME_KEY != VERSION_KEY && NAME_KEY != DISABLED_KEY
    ensures HASH_KEY != VERSION_KEY && HASH_KEY != DISABLED_KEY && VERSION_KEY != DISABLED_KEY
  {
    assert NAME_KEY[0] == 0x75 && HASH_KEY[0] == 0x70 && VERSION_KEY[0] == 0x74 && DISABLED_KEY[0] == 0x64;
    assert |NEXT_KEY| == 16 && |USERS_KEY| == 5;
  }

  lemma FourKeys(a: gostring, b: gostring, c: gostring, d: gostring, va: Node, vb: Node, vc: Node, vd: Node)
    requires a != b && a != c && a != d && b != c && b != d && c != d
    ensures var n := Object([Member(a, va), Member(b, vb), Member(c, vc), Member(d, vd)]);
            && UniqueKnown(n.members, [a, b, c, d])
            && Get(n, a) == Some(va) && Get(n, b) == Some(vb) && Get(n, c) == Some(vc) && Get(n, d) == Some(vd)
  {
    var m4 := [Member(d, vd)];
    var m3 := [Member(c, vc)] + m4;
    var m2 := [Member(b, vb)] + m3;
    assert [Member(a, va), Member(b, vb), Member(c, vc), Member(d, vd)] == [Member(a, va)] + m2;
    assert m4 == m4 + [];
    hide Find;
    FindStep(Member(a, va), m2);
    FindStep(Member(b, vb), m3);
    FindStep(Member(c, vc), m4);
    FindStep(Member(d, vd), []);
  }

  lemma FindStep(m: Member, rest: seq<Member>)
    ensures forall key :: Find([m] + rest, key) == if m.key == key then Some(m.val) else Find(rest, key)
  {
    assert ([m] + rest)[1..] == rest;
  }

  lemma TwoKeys(a: gostring, b: gostring, va: Node, vb: Node)
    requires a != b
    ensures var n := Object([Member(a, va), Member(b, vb)]);
            UniqueKnown(n.members, [a, b]) && Get(n, a) == Some(va) && Get(n, b) == Some(vb)
  {
    assert [Member(a, va), Member(b, vb)] == [Member(a, va)] + ([Member(b, vb)] + []);
    hide Find;
    FindStep(Member(a, va), [Member(b, vb)] + []);
    FindStep(Member(b, vb), []);
  }

  lemma UserComesBack(u: UserRecord, next: int)
    requires ValidUser(u, next) && next <= MAX_INT64
    ensures UserOf(UserNode(u)) == Some(Clean(u))
  {
    hide Utf8.IsBlank, IsArgon2Hash, UniqueKnown, Get, Utf8.Sanitized, Utf8.ValidFrom, Strconv.ParseInt, Strconv.FormatInt;
    KeysDiffer();
    FourKeys(NAME_KEY, HASH_KEY, VERSION_KEY, DISABLED_KEY, Str(Utf8.Sanitized(u.username)), Str(Utf8.Sanitized(u.passwordHash)),
             Number(Strconv.FormatInt(u.tokenVersion)), Bool(u.disabled));
    Strconv.ParseOfFormat(u.tokenVersion);
    HashIsAscii(u.passwordHash);
    Utf8.SanitizedIdentity(u.passwordHash);
  }

  lemma {:induction false} ListNodesIndex(users: seq<UserRecord>, i: nat)
    requires i <= |users|
    ensures |ListNodes(users, i)| == |users| - i
    ensures forall k :: 0 <= k < |users| - i ==> ListNodes(users, i)[k] == UserNode(users[i + k])
    decreases |users| - i
  {
    hide UserNode;
    if i < |users| {
      var rest := ListNodes(users, i + 1);
      assert ListNodes(users, i) == [UserNode(users[i])] + rest;
      hide ListNodes;
      ListNodesIndex(users, i + 1);
      forall k | 0 <= k < |users| - i ensures ListNodes(users, i)[k] == UserNode(users[i + k]) {
        if k > 0 {
          assert ListNodes(users, i)[k] == rest[k - 1];
          assert rest[k - 1] == UserNode(users[i + 1 + (k - 1)]);
        }
      }
    }
  }

  lemma {:induction false} UsersOfAll(items: seq<Node>, users: seq<UserRecord>)
    requires |items| == |users| && forall i :: 0 <= i < |items| ==> UserOf(items[i]) == Some(users[i])
    ensures UsersOf(items) == Some(users)
    decreases |items|
  {
    hide UserOf;
    if items != [] {
      UsersOfAll(items[..|items| - 1], users[..|users| - 1]);
      assert users == users[..|users| - 1] + [users[|users| - 1]];
    }
  }

  /** Cleaning keeps a user valid: the two names have the same runes. */
  lemma CleanIsValid(u: UserRecord, next: int)
    requires ValidUser(u, next)
    ensures ValidUser(Clean(u), next)
  {
    Utf8.SanitizedIsValid(u.username);
  }

  /** Load of what Save printed: the file with cleaned names, unless two names have become equal. */
  lemma LoadOfPrinted(f: FileValue, quote: Quoter)
    requires Quotes(quote) && ValidFile(f)
    ensures LoadText(FileText(f, quote)) == if DistinctNames(CleanAll(f.users)) then Some(CleanFile(f)) else None
  {
    hide DecodeText, FileText, UniqueKnown, Get, Strconv.ParseInt, Strconv.FormatInt, UserOf, UserNode, ValidUser, UsersOf;
    PrintedDecodes(f, quote);
    KeysDiffer();
    var nodes := ListNodes(f.users, 0);
    TwoKeys(NEXT_KEY, USERS_KEY, Number(Strconv.FormatInt(f.nextTokenVersion)), Array(nodes));
    Strconv.ParseOfFormat(f.nextTokenVersion);
    ListNodesIndex(f.users, 0);
    forall i | 0 <= i < |f.users|
      ensures UserOf(nodes[i]) == Some(CleanAll(f.users)[i]) && ValidUser(CleanAll(f.users)[i], f.nextTokenVersion)
    {
      assert ValidUser(f.users[i], f.nextTokenVersion);
      UserComesBack(f.users[i], f.nextTokenVersion);
      CleanIsValid(f.users[i], f.nextTokenVersion);
    }
    UsersOfAll(nodes, CleanAll(f.users));
  }

  lemma CleanIdentity(users: seq<UserRecord>)
    ensures CleanAll(users) == users <==> NamesAreUtf8(users)
  {
    hide Utf8.Sanitized, Utf8.ValidFrom;
    forall i | 0 <= i < |users| ensures CleanAll(users)[i] == users[i] <==> Utf8.Valid(users[i].username) {
      Utf8.SanitizedIdentity(users[i].username);
    }
  }

  /** Printing then loading is the identity exactly when every name is valid UTF-8. */
  lemma LoadOfPrintedIdentity(f: FileValue, quote: Quoter)
    requires Quotes(quote) && ValidFile(f)
    ensures LoadText(FileText(f, quote)) == Some(f) <==> NamesAreUtf8(f.users)
  {
    LoadOfPrinted(f, quote);
    CleanIdentity(f.users);
  }

  /** Two users whose names differ only in invalid bytes: Save writes the file, and Load refuses it. */
  lemma InvalidNamesCanBreakTheFile(quote: Quoter, hash: gostring)
    requires Quotes(quote) && IsArgon2Hash(hash)
    ensures var f := FileValue(3, [UserRecord([0xFF], hash, 1, false), UserRecord([0xFE], hash, 2, false)]);
            ValidFile(f) && LoadText(FileText(f, quote)) == None
  {
    hide IsArgon2Hash, FileText, LoadText;
    var f := FileValue(3, [UserRecord([0xFF], hash, 1, false), UserRecord([0xFE], hash, 2, false)]);
    assert Utf8.Runes([0xFF]) == [Utf8.RUNE_ERROR] == Utf8.Runes([0xFE]);
    assert !Utf8.IsSpace(Utf8.Runes([0xFF])[0]) && !Utf8.IsSpace(Utf8.Runes([0xFE])[0]);
    LoadOfPrinted(f, quote);
    assert CleanAll(f.users)[0].username == CleanAll(f.users)[1].username;
  }

  // Names that were loaded are valid UTF-8.

  lemma {:induction false} UsersOfElements(items: seq<Node>)
    requires UsersOf(items).Some?
    ensures |UsersOf(items).value| == |items|
    ensures forall i :: 0 <= i < |items| ==> UserOf(items[i]) == Some(UsersOf(items).value[i])
    decreases |items|
  {
    hide UserOf;
    if items != [] { UsersOfElements(items[..|items| - 1]); }
  }

  lemma UserNameIsUtf8(n: Node)
    requires StringsAreUtf8(n) && UserOf(n).Some?
    ensures Utf8.Valid(UserOf(n).value.username)
  {
    hide Utf8.ValidFrom, UniqueKnown, Strconv.ParseInt;
    var name := Get(n, NAME_KEY).value;
    var i :| 0 <= i < |n.members| && n.members[i] == Member(NAME_KEY, name);
    assert StringsAreUtf8(n.members[i].val);
  }

  lemma LoadedNamesAreUtf8(raw: gostring)
    requires LoadText(raw).Some?
    ensures NamesAreUtf8(LoadText(raw).value.users)
  {
    hide DecodeText, UserOf, UniqueKnown, Strconv.ParseInt, ValidFile, Utf8.ValidFrom, UsersOf;
    DecodedStringsAreUtf8(raw, 4);
    var root := DecodeText(raw, 4).value;
    var users := Get(root, USERS_KEY).value;
    var k :| 0 <= k < |root.members| && root.members[k] == Member(USERS_KEY, users);
    assert StringsAreUtf8(root.members[k].val);
    UsersOfElements(users.items);
    forall i | 0 <= i < |users.items| ensures Utf8.Valid(UsersOf(users.items).value[i].username) {
      UserNameIsUtf8(users.items[i]);
    }
  }

  lemma LoadedIsValid(raw: gostring)
    requires LoadText(raw).Some?
    ensures ValidFile(LoadText(raw).value)
  {
    hide DecodeText, ValidFile, UniqueKnown, Get, UsersOf;
  }

  // Exactly which trees are users files.

  function MembersOfUser(u: UserRecord, version: gostring): seq<Member> {
    [Member(NAME_KEY, Str(u.username)), Member(HASH_KEY, Str(u.passwordHash)), Member(VERSION_KEY, Number(version)),
     Member(DISABLED_KEY, Bool(u.disabled))]
  }

  const USER_KEYS := [NAME_KEY, HASH_KEY, VERSION_KEY, DISABLED_KEY]

  lemma MembersOfUserAreKnown(u: UserRecord, version: gostring)
    ensures UniqueKnown(MembersOfUser(u, version), USER_KEYS)
    ensures forall k :: k in USER_KEYS ==> exists m :: m in MembersOfUser(u, version) && m.key == k
  {
    KeysDiffer();
    var ms := MembersOfUser(u, version);
    assert ms[0].key == USER_KEYS[0] && ms[1].key == USER_KEYS[1] && ms[2].key == USER_KEYS[2] && ms[3].key == USER_KEYS[3];
    assert ms[0] in ms && ms[1] in ms && ms[2] in ms && ms[3] in ms;
  }

  lemma MembersOfUserFound(n: Node, u: UserRecord, version: gostring)
    ensures (forall m :: m in MembersOfUser(u, version) ==> Get(n, m.key) == Some(m.val)) <==>
            && Get(n, NAME_KEY) == Some(Str(u.username)) && Get(n, HASH_KEY) == Some(Str(u.passwordHash))
            && Get(n, VERSION_KEY) == Some(Number(version)) && Get(n, DISABLED_KEY) == Some(Bool(u.disabled))
  {
    hide Get;
    var ms := MembersOfUser(u, version);
    assert ms[0] in ms && ms[1] in ms && ms[2] in ms && ms[3] in ms;
  }

  /** An entry is a user exactly if it is an object of the four members, in some order, with a 64-bit version. */
  lemma UsersExactly(n: Node, u: UserRecord)
    ensures UserOf(n) == Some(u) <==>
            n.Object? && exists version :: multiset(n.members) == multiset(MembersOfUser(u, version))
                                          && Strconv.ParseInt(version) == Some(u.tokenVersion)
  {
    hide UniqueKnown, Get, MembersOfUser, Strconv.ParseInt;
    if UserOf(n) == Some(u) {
      var version := Get(n, VERSION_KEY).value.raw;
      MembersOfUserAreKnown(u, version);
      MembersOfUserFound(n, u, version);
      FromGets(n, MembersOfUser(u, version), USER_KEYS);
    }
    forall version | n.Object? && multiset(n.members) == multiset(MembersOfUser(u, version))
                     && Strconv.ParseInt(version) == Some(u.tokenVersion)
      ensures UserOf(n) == Some(u) {
      MembersOfUserAreKnown(u, version);
      GetsOf(n, MembersOfUser(u, version), USER_KEYS);
      MembersOfUserFound(n, u, version);
    }
  }

  function MembersOfFile(next: gostring, items: seq<Node>): seq<Member> {
    [Member(NEXT_KEY, Number(next)), Member(USERS_KEY, Array(items))]
  }

  const FILE_KEYS := [NEXT_KEY, USERS_KEY]

  lemma MembersOfFileAreKnown(next: gostring, items: seq<Node>)
    ensures UniqueKnown(MembersOfFile(next, items), FILE_KEYS)
    ensures forall k :: k in FILE_KEYS ==> exists m :: m in MembersOfFile(next, items) && m.key == k
  {
    KeysDiffer();
    var ms := MembersOfFile(next, items);
    assert ms[0].key == FILE_KEYS[0] && ms[1].key == FILE_KEYS[1] && ms[0] in ms && ms[1] in ms;
  }

  lemma MembersOfFileFound(n: Node, next: gostring, items: seq<Node>)
    ensures (forall m :: m in MembersOfFile(next, items) ==> Get(n, m.key) == Some(m.val)) <==>
            Get(n, NEXT_KEY) == Some(Number(next)) && Get(n, USERS_KEY) == Some(Array(items))
  {
    hide Get;
    var ms := MembersOfFile(next, items);
    assert ms[0] in ms && ms[1] in ms;
  }

  ghost predicate DescribesUsers(items: seq<Node>, users: seq<UserRecord>) {
    |items| == |users| && forall i :: 0 <= i < |items| ==> UserOf(items[i]) == Some(users[i])
  }

  lemma UserListsExactly(items: seq<Node>, users: seq<UserRecord>)
    ensures UsersOf(items) == Some(users) <==> DescribesUsers(items, users)
  {
    hide UserOf, UsersOf;
    if UsersOf(items) == Some(users) { UsersOfElements(items); }
    if DescribesUsers(items, users) { UsersOfAll(items, users); }
  }

  /** A tree is a users file exactly if it is an object of the watermark and the list, in some order, each entry of
      the list is its user, and the whole is valid. */
  lemma FilesExactly(root: Node, f: FileValue)
    ensures FileOf(root) == Some(f) <==>
            && root.Object? && ValidFile(f)
            && exists next, items :: multiset(root.members) == multiset(MembersOfFile(next, items))
                                    && Strconv.ParseInt(next) == Some(f.nextTokenVersion) && DescribesUsers(items, f.users)
  {
    hide UniqueKnown, Get, MembersOfFile, Strconv.ParseInt, ValidFile, UsersOf, DescribesUsers;
    if FileOf(root) == Some(f) {
      var next, items := Get(root, NEXT_KEY).value.raw, Get(root, USERS_KEY).value.items;
      MembersOfFileAreKnown(next, items);
      MembersOfFileFound(root, next, items);
      FromGets(root, MembersOfFile(next, items), FILE_KEYS);
      UserListsExactly(items, f.users);
    }
    forall next, items | root.Object? && ValidFile(f) && multiset(root.members) == multiset(MembersOfFile(next, items))
                         && Strconv.ParseInt(next) == Some(f.nextTokenVersion) && DescribesUsers(items, f.users)
      ensures FileOf(root) == Some(f) {
      MembersOfFileAreKnown(next, items);
      GetsOf(root, MembersOfFile(next, items), FILE_KEYS);
      MembersOfFileFound(root, next, items);
      UserListsExactly(items, f.users);
    }
  }
}
