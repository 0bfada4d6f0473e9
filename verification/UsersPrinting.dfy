/** Printing users.json and why Load reads back what was printed (internal/users/users.go). */
module UsersPrinting {
  import opened Base
  import opened JsonScanner
  import opened JsonGrammar
  import opened UsersFiles
  import opened CompactObject
  import JsonWriter
  import Strconv
  import Utf8

  /** encoding/json's Marshal of a string, whose escapes differ between Go versions. */
  type Quoter = gostring -> gostring

  ghost predicate IsLiteral(text: gostring, ps: seq<Piece>, s: gostring) {
    WellFormedPieces(ps) && text == [QUOTE] + StringBytes(ps) && StringValue(ps) == Utf8.Sanitized(s)
  }

  ghost predicate HasLiteral(text: gostring, s: gostring) {
    exists ps :: IsLiteral(text, ps, s)
  }

  /** All that is needed of it: it writes some JSON literal of the string, with U+FFFD for invalid bytes. */
  ghost predicate Quotes(quote: Quoter) {
    forall s: gostring :: HasLiteral(quote(s), s)
  }

  function DocumentedQuote(s: gostring): gostring {
    JsonWriter.Quoted(JsonWriter.AsDocumented, s)
  }

  /** Such a function exists: the documented escaper of serialize.go is one. */
  lemma DocumentedEscaperQuotes()
    ensures Quotes(DocumentedQuote)
  {
    var quote: Quoter := DocumentedQuote;
    hide HasLiteral, DocumentedQuote;
    forall s: gostring ensures HasLiteral(quote(s), s) {
      assert quote(s) == DocumentedQuote(s);
      DocumentedLiteral(s);
    }
  }

  lemma DocumentedLiteral(s: gostring)
    ensures HasLiteral(DocumentedQuote(s), s)
  {
    assert IsLiteral(DocumentedQuote(s), JsonWriter.LiteralOf(JsonWriter.AsDocumented, s), s) by { DocumentedIsLiteral(s); }
  }

  lemma DocumentedIsLiteral(s: gostring)
    ensures IsLiteral(DocumentedQuote(s), JsonWriter.LiteralOf(JsonWriter.AsDocumented, s), s)
  {
    hide WellFormedPieces, StringBytes, StringValue, JsonWriter.Quoted, JsonWriter.ReadBackAll, Utf8.EncodeAll, Utf8.Runes;
    JsonWriter.ReadBackLength(JsonWriter.AsDocumented, Utf8.Runes(s));
  }

  ghost function PiecesFor(quote: Quoter, s: gostring): (ps: seq<Piece>)
    requires Quotes(quote)
    ensures IsLiteral(quote(s), ps, s)
  {
    var ps :| IsLiteral(quote(s), ps, s);
    ps
  }

  function BoolText(b: bool): gostring {
    if b then TRUE else FALSE
  }

  const OPEN_USER: gostring := Ascii("    {\n")
  const TO_NAME: gostring := Ascii("      \"username\": ")
  const HEAD: gostring := OPEN_USER + TO_NAME
  const TO_HASH: gostring := Ascii(",\n      \"passwordHash\": ")
  const TO_VERSION: gostring := Ascii(",\n      \"tokenVersion\": ")
  const TO_DISABLED: gostring := Ascii(",\n      \"disabled\": ")
  const TAIL: gostring := Ascii("\n    }")
  const NEWLINE: gostring := [0x0A]
  const OPEN_FILE: gostring := Ascii("{\n")
  const TO_NEXT: gostring := Ascii("  \"nextTokenVersion\": ")
  const START: gostring := OPEN_FILE + TO_NEXT
  const NO_USERS: gostring := Ascii(",\n  \"users\": []\n}")
  const TO_USERS: gostring := Ascii(",\n  \"users\": [\n")
  const END: gostring := Ascii("  ]\n}")

  function UserText(u: UserRecord, quote: Quoter): gostring {
    HEAD + (quote(u.username) + (TO_HASH + (quote(u.passwordHash) + (TO_VERSION + (Strconv.FormatInt(u.tokenVersion)
    + (TO_DISABLED + (BoolText(u.disabled) + TAIL)))))))
  }

  /** What the loop over the users writes from user `i` on. */
  function ListText(users: seq<UserRecord>, i: nat, quote: Quoter): gostring
    requires i <= |users|
    decreases |users| - i
  {
    if i == |users| then []
    else UserText(users[i], quote) + ((if i < |users| - 1 then [COMMA] else []) + (NEWLINE + ListText(users, i + 1, quote)))
  }

  function FileText(f: FileValue, quote: Quoter): gostring {
    START + (Strconv.FormatInt(f.nextTokenVersion) +
    if f.users == [] then NO_USERS else TO_USERS + (ListText(f.users, 0, quote) + END))
  }

  method WriteUser(b: JsonWriter.Builder, u: UserRecord, quote: Quoter)
    modifies b
    ensures b.text == old(b.text) + UserText(u, quote)
  {
    hide Ascii, UserText, Strconv.FormatInt, BoolText;
    ghost var t := b.text;
    var name, hash := quote(u.username), quote(u.passwordHash);
    var version, disabled := Strconv.FormatInt(u.tokenVersion), BoolText(u.disabled);
    b.Write(OPEN_USER);
    b.Write(TO_NAME);
    b.Write(name);
    b.Write(TO_HASH);
    b.Write(hash);
    b.Write(TO_VERSION);
    b.Write(version);
    b.Write(TO_DISABLED);
    b.Write(disabled);
    b.Write(TAIL);
    Assoc(t, OPEN_USER, TO_NAME);
    Flatten(t, HEAD, name, TO_HASH, hash, TO_VERSION, version, TO_DISABLED, disabled, TAIL);
    UserTextIs(u, quote);
  }

  lemma UserTextIs(u: UserRecord, quote: Quoter)
    ensures UserText(u, quote) ==
            HEAD + (quote(u.username) + (TO_HASH + (quote(u.passwordHash) + (TO_VERSION + (Strconv.FormatInt(u.tokenVersion)
            + (TO_DISABLED + (BoolText(u.disabled) + TAIL)))))))
  {
  }

  /** Writing left to right is the nested concatenation. */
  lemma Flatten(t: gostring, a: gostring, b: gostring, c: gostring, d: gostring, e: gostring, f: gostring, g: gostring,
                h: gostring, i: gostring)
    ensures t + a + b + c + d + e + f + g + h + i == t + (a + (b + (c + (d + (e + (f + (g + (h + i))))))))
  {
    Assoc(t + a + b + c + d + e + f + g, h, i);
    Assoc(t + a + b + c + d + e + f, g, h + i);
    Assoc(t + a + b + c + d + e, f, g + (h + i));
    Assoc(t + a + b + c + d, e, f + (g + (h + i)));
    Assoc(t + a + b + c, d, e + (f + (g + (h + i))));
    Assoc(t + a + b, c, d + (e + (f + (g + (h + i)))));
    Assoc(t + a, b, c + (d + (e + (f + (g + (h + i))))));
    Assoc(t, a, b + (c + (d + (e + (f + (g + (h + i)))))));
  }

  method MarshalUsersFile(f: FileValue, quote: Quoter) returns (text: gostring)
    ensures text == FileText(f, quote)
  {
    hide Ascii, UserText, Strconv.FormatInt;
    var b := new JsonWriter.Builder();
    b.Write(OPEN_FILE);
    b.Write(TO_NEXT);
    var next := Strconv.FormatInt(f.nextTokenVersion);
    b.Write(next);
    assert b.text == START + next;
    if |f.users| == 0 {
      b.Write(NO_USERS);
      Assoc(START, next, NO_USERS);
      return b.text;
    }
    b.Write(TO_USERS);
    ghost var start := b.text;
    for i := 0 to |f.users|
      invariant b.text + ListText(f.users, i, quote) == start + ListText(f.users, 0, quote)
    {
      ghost var t := b.text;
      WriteUser(b, f.users[i], quote);
      ghost var comma := if i < |f.users| - 1 then [COMMA] else [];
      if i < |f.users| - 1 {
        b.Write([COMMA]);
      }
      assert b.text == t + UserText(f.users[i], quote) + comma;
      b.Write(NEWLINE);
      ListStep(t, UserText(f.users[i], quote), comma, ListText(f.users, i + 1, quote));
    }
    b.Write(END);
    text := b.text;
    FileFlatten(START, next, TO_USERS, ListText(f.users, 0, quote), END);
  }

  lemma ListStep(t: gostring, u: gostring, comma: gostring, rest: gostring)
    ensures t + u + comma + NEWLINE + rest == t + (u + (comma + (NEWLINE + rest)))
  {
    Assoc(t + u + comma, NEWLINE, rest);
    Assoc(t + u, comma, NEWLINE + rest);
    Assoc(t, u, comma + (NEWLINE + rest));
  }

  lemma FileFlatten(a: gostring, b: gostring, c: gostring, d: gostring, e: gostring)
    ensures a + b + c + d + e == a + (b + (c + (d + e)))
  {
    Assoc(a + b + c, d, e);
    Assoc(a + b, c, d + e);
    Assoc(a, b, c + (d + e));
  }

  // The printed file as a syntax tree.

  const NL2: gostring := Ascii("\n  ")
  const NL4: gostring := Ascii("\n    ")
  const NL6: gostring := Ascii("\n      ")
  const SPACE: gostring := [0x20]

  /** A member without whitespace before its colon. */
  ghost function M(ws: gostring, key: gostring, val: Cst, end: gostring): CstMember
    requires IsPlain(key)
  {
    CstMember(ws, PlainPieces(key), [], SPACE, val, end)
  }

  function KeyText(ws: gostring, key: gostring): gostring {
    ws + ([QUOTE] + (key + [QUOTE, COLON, 0x20]))
  }

  lemma MemberText(ws: gostring, key: gostring, val: Cst, end: gostring)
    requires IsPlain(key) && AllWs(ws) && AllWs(end) && WellFormed(val)
    ensures MemberBytes(M(ws, key, val, end)) == KeyText(ws, key) + (Bytes(val) + end)
    ensures WellFormedMember(M(ws, key, val, end))
    ensures DenotesMember(M(ws, key, val, end)) == Member(key, Denotes(val))
  {
    hide Bytes, WellFormed, Denotes;
    PlainPiecesAreRight(key);
    var v := Bytes(val) + end;
    assert [] + ([COLON] + (SPACE + v)) == [COLON, 0x20] + v;
    assert key + [QUOTE] + ([COLON, 0x20] + v) == key + [QUOTE, COLON, 0x20] + v;
    Assoc(ws, [QUOTE] + (key + [QUOTE, COLON, 0x20]), v);
    Assoc([QUOTE], key + [QUOTE, COLON, 0x20], v);
  }

  ghost function BoolLiteral(b: bool): Cst {
    if b then TrueLiteral else FalseLiteral
  }

  lemma KeysArePlain()
    ensures IsPlain(NEXT_KEY) && IsPlain(USERS_KEY) && IsPlain(NAME_KEY) && IsPlain(HASH_KEY) && IsPlain(VERSION_KEY) && IsPlain(DISABLED_KEY)
  {
  }

  lemma BreaksAreWs()
    ensures AllWs(NL2) && AllWs(NL4) && AllWs(NL6) && AllWs(NEWLINE) && AllWs(SPACE) && AllWs([])
  {
  }

  ghost function UserMembers(u: UserRecord, quote: Quoter): CstMembers
    requires Quotes(quote)
  {
    KeysArePlain();
    FourMembers(M(NL6, NAME_KEY, StringLiteral(PiecesFor(quote, u.username)), []),
                M(NL6, HASH_KEY, StringLiteral(PiecesFor(quote, u.passwordHash)), []),
                M(NL6, VERSION_KEY, NumberLiteral(Strconv.FormatInt(u.tokenVersion)), []),
                M(NL6, DISABLED_KEY, BoolLiteral(u.disabled), NL4))
  }

  /** The node that a printed user denotes. */
  ghost function UserNode(u: UserRecord): Node {
    Object([Member(NAME_KEY, Str(Utf8.Sanitized(u.username))), Member(HASH_KEY, Str(Utf8.Sanitized(u.passwordHash))),
            Member(VERSION_KEY, Number(Strconv.FormatInt(u.tokenVersion))), Member(DISABLED_KEY, Bool(u.disabled))])
  }

  lemma HeadMeets()
    ensures NEWLINE + HEAD == NL4 + [OPEN_BRACE] + KeyText(NL6, NAME_KEY)
  {
    assert NEWLINE + Ascii("    {\n") == NL4 + [OPEN_BRACE] + NEWLINE;
    assert NEWLINE + Ascii("      \"username\": ") == KeyText(NL6, NAME_KEY);
    Assoc(NEWLINE, Ascii("    {\n"), Ascii("      \"username\": "));
    Assoc(NL4 + [OPEN_BRACE], NEWLINE, Ascii("      \"username\": "));
  }

  lemma HashMeets()
    ensures TO_HASH == [COMMA] + KeyText(NL6, HASH_KEY)
  {
  }

  lemma VersionMeets()
    ensures TO_VERSION == [COMMA] + KeyText(NL6, VERSION_KEY)
  {
  }

  lemma DisabledMeets()
    ensures TO_DISABLED == [COMMA] + KeyText(NL6, DISABLED_KEY)
    ensures TAIL == NL4 + [CLOSE_BRACE]
  {
  }

  /** Regrouping around the separators. */
  lemma Regroup(pre: gostring, o: gostring, c: gostring, k1: gostring, v1: gostring, k2: gostring, v2: gostring,
                k3: gostring, v3: gostring, k4: gostring, v4: gostring, w: gostring, e: gostring)
    ensures pre + (o + ((k1 + v1) + (c + ((k2 + v2) + (c + ((k3 + v3) + (c + ((k4 + (v4 + w)) + e))))))))
         == pre + o + k1 + (v1 + ((c + k2) + (v2 + ((c + k3) + (v3 + ((c + k4) + (v4 + (w + e))))))))
  {
    Assoc(k4, v4 + w, e);
    Assoc(v4, w, e);
    var t4 := v4 + (w + e);
    Assoc(c, k4, t4);
    var t3 := v3 + ((c + k4) + t4);
    Assoc(k3, v3, (c + k4) + t4);
    Assoc(c, k3, t3);
    var t2 := v2 + ((c + k3) + t3);
    Assoc(k2, v2, (c + k3) + t3);
    Assoc(c, k2, t2);
    var t1 := v1 + ((c + k2) + t2);
    Assoc(k1, v1, (c + k2) + t2);
    Assoc(o, k1, t1);
    Assoc(pre, o + k1, t1);
    Assoc(pre, o, k1);
  }

  lemma LeavesAreRight(u: UserRecord, quote: Quoter)
    requires Quotes(quote)
    ensures var name, hash := StringLiteral(PiecesFor(quote, u.username)), StringLiteral(PiecesFor(quote, u.passwordHash));
            var version, disabled := NumberLiteral(Strconv.FormatInt(u.tokenVersion)), BoolLiteral(u.disabled);
            && WellFormed(name) && WellFormed(hash) && WellFormed(version) && WellFormed(disabled)
            && Bytes(name) == quote(u.username) && Bytes(hash) == quote(u.passwordHash)
            && Bytes(version) == Strconv.FormatInt(u.tokenVersion) && Bytes(disabled) == BoolText(u.disabled)
            && Denotes(name) == Str(Utf8.Sanitized(u.username)) && Denotes(hash) == Str(Utf8.Sanitized(u.passwordHash))
            && Denotes(version) == Number(Strconv.FormatInt(u.tokenVersion)) && Denotes(disabled) == Bool(u.disabled)
            && Depth(name) == Depth(hash) == Depth(version) == Depth(disabled) == 0
  {
    hide Strconv.FormatInt;
    Strconv.FormatIsLiteral(u.tokenVersion);
  }

  ghost function FourMembers(m1: CstMember, m2: CstMember, m3: CstMember, m4: CstMember): CstMembers {
    MoreMembers(m1, MoreMembers(m2, MoreMembers(m3, LastMember(m4))))
  }

  lemma FourMembersDenote(m1: CstMember, m2: CstMember, m3: CstMember, m4: CstMember)
    requires WellFormedMember(m1) && WellFormedMember(m2) && WellFormedMember(m3) && WellFormedMember(m4)
    requires Depth(m1.val) == Depth(m2.val) == Depth(m3.val) == Depth(m4.val) == 0
    ensures var c := FullObject(FourMembers(m1, m2, m3, m4));
            && WellFormed(c) && Depth(c) == 1
            && Denotes(c) == Object([DenotesMember(m1), DenotesMember(m2), DenotesMember(m3), DenotesMember(m4)])
  {
    hide WellFormedMember, DenotesMember, WellFormedMembers, DenotesMembers, MembersDepth;
    var ms3 := MoreMembers(m3, LastMember(m4));
    var ms2 := MoreMembers(m2, ms3);
    LastDenotes(m4);
    MoreDenote(m3, LastMember(m4));
    MoreDenote(m2, ms3);
    MoreDenote(m1, ms2);
    assert [DenotesMember(m1)] + ([DenotesMember(m2)] + ([DenotesMember(m3)] + [DenotesMember(m4)]))
        == [DenotesMember(m1), DenotesMember(m2), DenotesMember(m3), DenotesMember(m4)];
  }

  lemma LastDenotes(m: CstMember)
    requires WellFormedMember(m)
    ensures WellFormedMembers(LastMember(m)) && DenotesMembers(LastMember(m)) == [DenotesMember(m)]
    ensures MembersDepth(LastMember(m)) == Depth(m.val)
  {
    hide WellFormedMember, DenotesMember, Depth;
  }

  lemma MoreDenote(m: CstMember, rest: CstMembers)
    requires WellFormedMember(m) && WellFormedMembers(rest)
    ensures WellFormedMembers(MoreMembers(m, rest))
    ensures DenotesMembers(MoreMembers(m, rest)) == [DenotesMember(m)] + DenotesMembers(rest)
    ensures MembersDepth(MoreMembers(m, rest)) == Max(Depth(m.val), MembersDepth(rest))
  {
    hide WellFormedMember, DenotesMember, Depth;
  }

  lemma FourMembersBytes(m1: CstMember, m2: CstMember, m3: CstMember, m4: CstMember)
    ensures Bytes(FullObject(FourMembers(m1, m2, m3, m4))) ==
            [OPEN_BRACE] + (MemberBytes(m1) + ([COMMA] + (MemberBytes(m2) + ([COMMA] + (MemberBytes(m3)
            + ([COMMA] + (MemberBytes(m4) + [CLOSE_BRACE])))))))
  {
    hide MemberBytes;
    var ms3 := MoreMembers(m3, LastMember(m4));
    var ms2 := MoreMembers(m2, ms3);
    assert MembersBytes(ms3) == MemberBytes(m3) + ([COMMA] + (MemberBytes(m4) + [CLOSE_BRACE]));
    assert MembersBytes(ms2) == MemberBytes(m2) + ([COMMA] + MembersBytes(ms3));
  }

  ghost function UserCst(u: UserRecord, quote: Quoter): Cst
    requires Quotes(quote)
  {
    FullObject(UserMembers(u, quote))
  }

  /** A printed user is a well-formed object that denotes its node. */
  lemma UserCstIsRight(u: UserRecord, quote: Quoter)
    requires Quotes(quote)
    ensures WellFormed(UserCst(u, quote)) && Denotes(UserCst(u, quote)) == UserNode(u) && Depth(UserCst(u, quote)) == 1
    ensures NL4 + Bytes(UserCst(u, quote)) == NEWLINE + UserText(u, quote)
  {
    hide MemberBytes, WellFormedMember, DenotesMember, KeyText, Strconv.FormatInt, BoolText, AllWs, WellFormed, Bytes, Depth, Denotes;
    KeysArePlain();
    BreaksAreWs();
    LeavesAreRight(u, quote);
    var name, hash := StringLiteral(PiecesFor(quote, u.username)), StringLiteral(PiecesFor(quote, u.passwordHash));
    var version, disabled := NumberLiteral(Strconv.FormatInt(u.tokenVersion)), BoolLiteral(u.disabled);
    MemberText(NL6, NAME_KEY, name, []);
    MemberText(NL6, HASH_KEY, hash, []);
    MemberText(NL6, VERSION_KEY, version, []);
    MemberText(NL6, DISABLED_KEY, disabled, NL4);
    var m1, m2 := M(NL6, NAME_KEY, name, []), M(NL6, HASH_KEY, hash, []);
    var m3, m4 := M(NL6, VERSION_KEY, version, []), M(NL6, DISABLED_KEY, disabled, NL4);
    FourMembersDenote(m1, m2, m3, m4);
    FourMembersBytes(m1, m2, m3, m4);
    hide FourMembers;
    UserBytesRegroup(u, quote, Bytes(UserCst(u, quote)));
  }

  lemma UserBytesRegroup(u: UserRecord, quote: Quoter, bytes: gostring)
    requires var q1, q2, n, b := quote(u.username), quote(u.passwordHash), Strconv.FormatInt(u.tokenVersion), BoolText(u.disabled);
             bytes == [OPEN_BRACE] + ((KeyText(NL6, NAME_KEY) + (q1 + [])) + ([COMMA] + ((KeyText(NL6, HASH_KEY) + (q2 + []))
                      + ([COMMA] + ((KeyText(NL6, VERSION_KEY) + (n + [])) + ([COMMA] + ((KeyText(NL6, DISABLED_KEY) + (b + NL4))
                      + [CLOSE_BRACE])))))))
    ensures NL4 + bytes == NEWLINE + UserText(u, quote)
  {
    hide KeyText, Strconv.FormatInt, BoolText;
    var q1, q2, n, b := quote(u.username), quote(u.passwordHash), Strconv.FormatInt(u.tokenVersion), BoolText(u.disabled);
    var k1, k2, k3, k4 := KeyText(NL6, NAME_KEY), KeyText(NL6, HASH_KEY), KeyText(NL6, VERSION_KEY), KeyText(NL6, DISABLED_KEY);
    assert q1 + [] == q1 && q2 + [] == q2 && n + [] == n;
    Regroup(NL4, [OPEN_BRACE], [COMMA], k1, q1, k2, q2, k3, n, k4, b, NL4, [CLOSE_BRACE]);
    HeadMeets();
    HashMeets();
    VersionMeets();
    DisabledMeets();
    Assoc(NEWLINE, HEAD, q1 + (TO_HASH + (q2 + (TO_VERSION + (n + (TO_DISABLED + (b + TAIL)))))));
  }

  /** The elements of the printed list, from user `i` on. */
  ghost function ListItems(users: seq<UserRecord>, i: nat, quote: Quoter): CstItems
    requires Quotes(quote) && i < |users|
    decreases |users| - i
  {
    if i == |users| - 1 then LastItem(CstItem(NL4, UserCst(users[i], quote), NL2))
    else MoreItems(CstItem(NL4, UserCst(users[i], quote), []), ListItems(users, i + 1, quote))
  }

  ghost function ListNodes(users: seq<UserRecord>, i: nat): seq<Node>
    requires i <= |users|
    decreases |users| - i
  {
    if i == |users| then [] else [UserNode(users[i])] + ListNodes(users, i + 1)
  }

  lemma {:induction false} ListItemsAreRight(users: seq<UserRecord>, i: nat, quote: Quoter)
    requires Quotes(quote) && i < |users|
    ensures WellFormedItems(ListItems(users, i, quote)) && ItemsDepth(ListItems(users, i, quote)) == 1
    ensures DenotesItems(ListItems(users, i, quote)) == ListNodes(users, i)
    decreases |users| - i
  {
    hide WellFormed, Denotes, Depth, UserCst;
    BreaksAreWs();
    UserCstIsRight(users[i], quote);
    if i < |users| - 1 { ListItemsAreRight(users, i + 1, quote); }
  }

  const LIST_END: gostring := Ascii("  ]")

  lemma {:induction false} ListItemsBytes(users: seq<UserRecord>, i: nat, quote: Quoter)
    requires Quotes(quote) && i < |users|
    ensures ItemsBytes(ListItems(users, i, quote)) == NEWLINE + (ListText(users, i, quote) + LIST_END)
    decreases |users| - i
  {
    ListItemsStep(users, i, quote);
    hide ItemsBytes, ListItems, ListText, Bytes, UserText, UserCst;
    UserCstIsRight(users[i], quote);
    var u, cst := UserText(users[i], quote), Bytes(UserCst(users[i], quote));
    if i == |users| - 1 {
      LastLineRegroup(u, cst);
    } else {
      ListItemsBytes(users, i + 1, quote);
      LineRegroup(u, cst, ListText(users, i + 1, quote), LIST_END);
    }
  }

  lemma ListItemsStep(users: seq<UserRecord>, i: nat, quote: Quoter)
    requires Quotes(quote) && i < |users|
    ensures var u, cst, last := UserText(users[i], quote), Bytes(UserCst(users[i], quote)), i == |users| - 1;
            && ItemsBytes(ListItems(users, i, quote)) ==
               (if last then (NL4 + (cst + NL2)) + [CLOSE_BRACKET]
                else (NL4 + (cst + [])) + ([COMMA] + ItemsBytes(ListItems(users, i + 1, quote))))
            && ListText(users, i, quote) ==
               (if last then u + ([] + (NEWLINE + [])) else u + ([COMMA] + (NEWLINE + ListText(users, i + 1, quote))))
  {
    hide Bytes, UserText, UserCst;
    assert i == |users| - 1 ==> ListText(users, i + 1, quote) == [];
  }

  lemma LastLineRegroup(u: gostring, cst: gostring)
    requires NL4 + cst == NEWLINE + u
    ensures (NL4 + (cst + NL2)) + [CLOSE_BRACKET] == NEWLINE + ((u + ([] + (NEWLINE + []))) + LIST_END)
  {
    EndMeets();
    assert [] + (NEWLINE + []) == NEWLINE;
    Assoc(NL4, cst, NL2);
    Assoc(NL4 + cst, NL2, [CLOSE_BRACKET]);
    Assoc(u, NEWLINE, LIST_END);
    Assoc(NEWLINE, u, NEWLINE + LIST_END);
  }

  lemma LineRegroup(u: gostring, cst: gostring, rest: gostring, end: gostring)
    requires NL4 + cst == NEWLINE + u
    ensures (NL4 + (cst + [])) + ([COMMA] + (NEWLINE + (rest + end))) == NEWLINE + ((u + ([COMMA] + (NEWLINE + rest))) + end)
  {
    var tail := [COMMA] + (NEWLINE + (rest + end));
    assert cst + [] == cst;
    Assoc(NEWLINE, u, tail);
    Assoc(u, [COMMA] + (NEWLINE + rest), end);
    Assoc([COMMA], NEWLINE + rest, end);
    Assoc(NEWLINE, rest, end);
  }

  lemma EndMeets()
    ensures NL2 + [CLOSE_BRACKET] == NEWLINE + LIST_END
  {
  }

  ghost function UsersCst(users: seq<UserRecord>, quote: Quoter): Cst
    requires Quotes(quote)
  {
    if users == [] then EmptyArray([]) else FullArray(ListItems(users, 0, quote))
  }

  ghost function FileMembers(f: FileValue, quote: Quoter): CstMembers
    requires Quotes(quote)
  {
    KeysArePlain();
    MoreMembers(M(NL2, NEXT_KEY, NumberLiteral(Strconv.FormatInt(f.nextTokenVersion)), []),
                LastMember(M(NL2, USERS_KEY, UsersCst(f.users, quote), NEWLINE)))
  }

  ghost function FileNode(f: FileValue): Node {
    Object([Member(NEXT_KEY, Number(Strconv.FormatInt(f.nextTokenVersion))), Member(USERS_KEY, Array(ListNodes(f.users, 0)))])
  }

  lemma StartMeets()
    ensures START == [OPEN_BRACE] + KeyText(NL2, NEXT_KEY)
  {
  }

  lemma UsersKeyMeets()
    ensures Ascii(",\n  \"users\": ") == [COMMA] + KeyText(NL2, USERS_KEY)
  {
  }

  lemma ArrayLiteralsMeet()
    ensures NO_USERS == Ascii(",\n  \"users\": ") + ([OPEN_BRACKET] + ([] + [CLOSE_BRACKET]) + (NEWLINE + [CLOSE_BRACE]))
    ensures TO_USERS == Ascii(",\n  \"users\": ") + ([OPEN_BRACKET] + NEWLINE)
    ensures END == LIST_END + (NEWLINE + [CLOSE_BRACE])
  {
  }

  lemma TwoMembersDenote(m1: CstMember, m2: CstMember)
    requires WellFormedMember(m1) && WellFormedMember(m2) && Depth(m1.val) == 0 && Depth(m2.val) <= 2
    ensures var c := FullObject(MoreMembers(m1, LastMember(m2)));
            && WellFormed(c) && Depth(c) <= 3 && Denotes(c) == Object([DenotesMember(m1), DenotesMember(m2)])
            && Bytes(c) == [OPEN_BRACE] + (MemberBytes(m1) + ([COMMA] + (MemberBytes(m2) + [CLOSE_BRACE])))
  {
    hide WellFormedMember, DenotesMember, MemberBytes;
    var last := LastMember(m2);
    assert WellFormedMembers(last) && DenotesMembers(last) == [DenotesMember(m2)] && MembersDepth(last) <= 2;
    assert MembersBytes(last) == MemberBytes(m2) + [CLOSE_BRACE];
  }

  lemma UsersCstIsRight(users: seq<UserRecord>, quote: Quoter)
    requires Quotes(quote)
    ensures var c := UsersCst(users, quote);
            WellFormed(c) && Denotes(c) == Array(ListNodes(users, 0)) && Depth(c) <= 2
  {
    hide WellFormedItems, DenotesItems, ItemsDepth, ListItems, UserNode;
    if users != [] { ListItemsAreRight(users, 0, quote); }
  }

  ghost function FileCst(f: FileValue, quote: Quoter): Cst
    requires Quotes(quote)
  {
    FullObject(FileMembers(f, quote))
  }

  /** The printed file is the text of a well-formed tree that denotes the file's node. */
  lemma FileCstIsRight(f: FileValue, quote: Quoter)
    requires Quotes(quote)
    ensures WellFormed(FileCst(f, quote)) && Depth(FileCst(f, quote)) <= 3
    ensures Denotes(FileCst(f, quote)) == FileNode(f)
    ensures Bytes(FileCst(f, quote)) == FileText(f, quote)
  {
    hide WellFormedMember, DenotesMember, MemberBytes, WellFormed, Denotes, Depth, Bytes, UsersCst, Strconv.FormatInt,
         ListNodes, AllWs, KeyText, FileText;
    KeysArePlain();
    BreaksAreWs();
    NumberIsRight(f.nextTokenVersion);
    UsersCstIsRight(f.users, quote);
    var next, users := NumberLiteral(Strconv.FormatInt(f.nextTokenVersion)), UsersCst(f.users, quote);
    MemberText(NL2, NEXT_KEY, next, []);
    MemberText(NL2, USERS_KEY, users, NEWLINE);
    TwoMembersDenote(M(NL2, NEXT_KEY, next, []), M(NL2, USERS_KEY, users, NEWLINE));
    FileBytes(f, quote);
  }

  lemma NumberIsRight(n: int)
    ensures var c := NumberLiteral(Strconv.FormatInt(n));
            WellFormed(c) && Denotes(c) == Number(Strconv.FormatInt(n)) && Depth(c) == 0 && Bytes(c) == Strconv.FormatInt(n)
  {
    hide Strconv.FormatInt;
    Strconv.FormatIsLiteral(n);
  }

  lemma FileBytes(f: FileValue, quote: Quoter)
    requires Quotes(quote)
    ensures [OPEN_BRACE] + ((KeyText(NL2, NEXT_KEY) + (Strconv.FormatInt(f.nextTokenVersion) + [])) + ([COMMA]
            + ((KeyText(NL2, USERS_KEY) + (Bytes(UsersCst(f.users, quote)) + NEWLINE)) + [CLOSE_BRACE]))) == FileText(f, quote)
  {
    hide KeyText, Strconv.FormatInt, ListText, ListItems;
    var n, u, k1, k2 := Strconv.FormatInt(f.nextTokenVersion), Bytes(UsersCst(f.users, quote)), KeyText(NL2, NEXT_KEY), KeyText(NL2, USERS_KEY);
    assert n + [] == n;
    var end := u + (NEWLINE + [CLOSE_BRACE]);
    Assoc(k2, u + NEWLINE, [CLOSE_BRACE]);
    Assoc(u, NEWLINE, [CLOSE_BRACE]);
    Assoc([COMMA], k2, end);
    Assoc(k1, n, ([COMMA] + k2) + end);
    Assoc([OPEN_BRACE], k1, n + (([COMMA] + k2) + end));
    StartMeets();
    UsersBytes(f.users, quote);
  }

  lemma UsersBytes(users: seq<UserRecord>, quote: Quoter)
    requires Quotes(quote)
    ensures ([COMMA] + KeyText(NL2, USERS_KEY)) + (Bytes(UsersCst(users, quote)) + (NEWLINE + [CLOSE_BRACE]))
            == if users == [] then NO_USERS else TO_USERS + (ListText(users, 0, quote) + END)
  {
    hide KeyText, ListText, ListItems, ItemsBytes;
    UsersKeyMeets();
    ArrayLiteralsMeet();
    if users != [] {
      ListItemsBytes(users, 0, quote);
      var k, e, list := Ascii(",\n  \"users\": "), NEWLINE + [CLOSE_BRACE], ListText(users, 0, quote);
      hide Ascii;
      Assoc([OPEN_BRACKET], NEWLINE, list + LIST_END);
      Assoc([OPEN_BRACKET] + NEWLINE, list + LIST_END, e);
      Assoc(list, LIST_END, e);
      Assoc(k, [OPEN_BRACKET] + NEWLINE, list + (LIST_END + e));
    }
  }
}
