/** Login tokens: signing and verifying (internal/auth/token.go). HMAC and Base64 are parameters, and so is
    encoding/json's string marshalling. Times are nanoseconds. */
module Tokens {
  import opened Base
  import opened JsonScanner
  import opened JsonGrammar
  import opened UsersFiles
  import opened UsersPrinting
  import opened CompactObject
  import UsersRoundTrip
  import Strconv
  import Utf8

  datatype TokenPayload = TokenPayload(subject: gostring, version: int, issuedAtUnix: int, expiresAtUnix: int)

  const NANOS: int := 1_000_000_000

  function Unix(t: int): int {
    t / NANOS
  }

  /** Nothing stands for the panic on a lifetime that is not positive. */
  function CreateTokenPayload(user: UserRecord, now: int, ttl: int): Option<TokenPayload> {
    if ttl <= 0 then None
    else Some(TokenPayload(user.username, user.tokenVersion, Unix(now), Unix(now + ttl)))
  }

  // The payload's JSON.

  const SUB: gostring := Ascii("sub")
  const VER: gostring := Ascii("ver")
  const IAT: gostring := Ascii("iat")
  const EXP: gostring := Ascii("exp")
  const OPEN_SUB: gostring := Ascii("{\"sub\":")
  const TO_VER: gostring := Ascii(",\"ver\":")
  const TO_IAT: gostring := Ascii(",\"iat\":")
  const TO_EXP: gostring := Ascii(",\"exp\":")

  function PayloadText(p: TokenPayload, quote: Quoter): gostring {
    OPEN_SUB + (quote(p.subject) + (TO_VER + (Strconv.FormatInt(p.version) + (TO_IAT + (Strconv.FormatInt(p.issuedAtUnix)
    + (TO_EXP + (Strconv.FormatInt(p.expiresAtUnix) + [CLOSE_BRACE])))))))
  }

  ghost function PositiveInteger(root: Node, name: gostring): Option<int> {
    var element := Get(root, name);
    if element.None? || !element.value.Number? then None
    else
      var value := Strconv.ParseInt(element.value.raw);
      if value.None? || value.value <= 0 then None else value
  }

  /** parseTokenPayload on the decoded tree. */
  ghost function PayloadOf(root: Node): Option<TokenPayload> {
    if !root.Object? || |root.members| != 4 then None
    else
      var subject := Get(root, SUB);
      if subject.None? || !subject.value.Str? || subject.value.str == [] then None
      else
        var version, issuedAt, expiresAt := PositiveInteger(root, VER), PositiveInteger(root, IAT), PositiveInteger(root, EXP);
        if version.None? || issuedAt.None? || expiresAt.None? then None
        else Some(TokenPayload(subject.value.str, version.value, issuedAt.value, expiresAt.value))
  }

  ghost function ParsePayload(bytes: gostring): Option<TokenPayload> {
    match DecodeText(bytes, 2)
    case None => None
    case Some(root) => PayloadOf(root)
  }

  ghost predicate Int64s(p: TokenPayload) {
    && MIN_INT64 <= p.version <= MAX_INT64
    && MIN_INT64 <= p.issuedAtUnix <= MAX_INT64
    && MIN_INT64 <= p.expiresAtUnix <= MAX_INT64
  }

  predicate AllPositive(p: TokenPayload) {
    p.subject != [] && p.version > 0 && p.issuedAtUnix > 0 && p.expiresAtUnix > 0
  }

  /** The payload as it comes back. */
  function CleanPayload(p: TokenPayload): TokenPayload {
    p.(subject := Utf8.Sanitized(p.subject))
  }

  ghost function PayloadFields(p: TokenPayload, quote: Quoter): seq<Field>
    requires Quotes(quote)
  {
    [Field(SUB, StringLiteral(PiecesFor(quote, p.subject))), Field(VER, NumberLiteral(Strconv.FormatInt(p.version))),
     Field(IAT, NumberLiteral(Strconv.FormatInt(p.issuedAtUnix))), Field(EXP, NumberLiteral(Strconv.FormatInt(p.expiresAtUnix)))]
  }

  ghost function PayloadNode(p: TokenPayload): Node {
    Object([Member(SUB, Str(Utf8.Sanitized(p.subject))), Member(VER, Number(Strconv.FormatInt(p.version))),
            Member(IAT, Number(Strconv.FormatInt(p.issuedAtUnix))), Member(EXP, Number(Strconv.FormatInt(p.expiresAtUnix)))])
  }

  lemma KeysArePlain()
    ensures IsPlain(SUB) && IsPlain(VER) && IsPlain(IAT) && IsPlain(EXP)
    ensures SUB != VER && SUB != IAT && SUB != EXP && VER != IAT && VER != EXP && IAT != EXP
  {
    assert SUB[0] == 0x73 && VER[0] == 0x76 && IAT[0] == 0x69 && EXP[0] == 0x65;
  }

  lemma LiteralsMeet()
    ensures OPEN_SUB == [OPEN_BRACE] + KeyColon(SUB)
    ensures TO_VER == [COMMA] + KeyColon(VER)
    ensures TO_IAT == [COMMA] + KeyColon(IAT)
    ensures TO_EXP == [COMMA] + KeyColon(EXP)
  {
  }

  lemma FourFields(a: Field, b: Field, c: Field, d: Field)
    requires IsField(a) && IsField(b) && IsField(c) && IsField(d)
    requires Depth(a.val) == Depth(b.val) == Depth(c.val) == Depth(d.val) == 0
    ensures AreFields([a, b, c, d]) && FieldsDepth([a, b, c, d]) == 0
    ensures Denoted([a, b, c, d]) == [DenotedField(a), DenotedField(b), DenotedField(c), DenotedField(d)]
    ensures [OPEN_BRACE] + FieldsText([a, b, c, d]) ==
            ([OPEN_BRACE] + KeyColon(a.key)) + (Bytes(a.val) + (([COMMA] + KeyColon(b.key)) + (Bytes(b.val)
            + (([COMMA] + KeyColon(c.key)) + (Bytes(c.val) + (([COMMA] + KeyColon(d.key)) + (Bytes(d.val) + [CLOSE_BRACE])))))))
  {
    hide IsField, DenotedField, Bytes, KeyColon, Depth;
    FlatFields(a, b, c, d);
    var f3, f2, f1 := [d], [c, d], [b, c, d];
    assert f2[1..] == f3 && f1[1..] == f2 && [a, b, c, d][1..] == f1 && f3[1..] == [];
    var t3 := Bytes(d.val) + [CLOSE_BRACE];
    var t2 := Bytes(c.val) + ([COMMA] + (KeyColon(d.key) + t3));
    var t1 := Bytes(b.val) + ([COMMA] + (KeyColon(c.key) + t2));
    assert FieldsText(f3) == KeyColon(d.key) + t3;
    assert FieldsText(f2) == KeyColon(c.key) + t2;
    assert FieldsText(f1) == KeyColon(b.key) + t1;
    Assoc([COMMA], KeyColon(d.key), t3);
    Assoc([COMMA], KeyColon(c.key), t2);
    Assoc([COMMA], KeyColon(b.key), t1);
    Assoc([OPEN_BRACE], KeyColon(a.key), Bytes(a.val) + ([COMMA] + FieldsText(f1)));
    assert Denoted(f3) == [DenotedField(d)] + Denoted([]);
    assert Denoted(f2) == [DenotedField(c)] + Denoted(f3);
    assert Denoted(f1) == [DenotedField(b)] + Denoted(f2);
  }

  lemma FlatFields(a: Field, b: Field, c: Field, d: Field)
    requires Depth(a.val) == Depth(b.val) == Depth(c.val) == Depth(d.val) == 0
    ensures FieldsDepth([a, b, c, d]) == 0
  {
    hide Depth;
    assert [a, b, c, d][1..] == [b, c, d] && [b, c, d][1..] == [c, d] && [c, d][1..] == [d] && [d][1..] == [];
    assert FieldsDepth([d]) == 0;
    assert FieldsDepth([c, d]) == 0;
    assert FieldsDepth([b, c, d]) == 0;
  }

  lemma QuotedLeaf(s: gostring, quote: Quoter)
    requires Quotes(quote)
    ensures var c := StringLiteral(PiecesFor(quote, s));
            WellFormed(c) && Denotes(c) == Str(Utf8.Sanitized(s)) && Depth(c) == 0 && Bytes(c) == quote(s)
  {
  }

  lemma PayloadDecodes(p: TokenPayload, quote: Quoter)
    requires Quotes(quote)
    ensures DecodeText(PayloadText(p, quote), 2) == Some(PayloadNode(p))
  {
    hide DecodeText, WellFormed, Denotes, Depth, Bytes, FieldsText, Denoted, KeyColon, AreFields, IsPlain, Strconv.FormatInt, PiecesFor;
    KeysArePlain();
    LiteralsMeet();
    QuotedLeaf(p.subject, quote);
    NumberIsRight(p.version);
    NumberIsRight(p.issuedAtUnix);
    NumberIsRight(p.expiresAtUnix);
    var fs := PayloadFields(p, quote);
    FourFields(fs[0], fs[1], fs[2], fs[3]);
    CompactDecodes(fs, 2);
  }

  lemma NumberComesBack(root: Node, key: gostring, n: int)
    requires Get(root, key) == Some(Number(Strconv.FormatInt(n))) && MIN_INT64 <= n <= MAX_INT64
    ensures PositiveInteger(root, key) == if n > 0 then Some(n) else None
  {
    Strconv.ParseOfFormat(n);
  }

  /** Parsing a printed payload gives it back, with a clean subject, exactly when every field is acceptable. */
  lemma ParseOfPrinted(p: TokenPayload, quote: Quoter)
    requires Quotes(quote) && Int64s(p)
    ensures ParsePayload(PayloadText(p, quote)) == if AllPositive(p) then Some(CleanPayload(p)) else None
  {
    hide DecodeText, PayloadText, Get, Strconv.FormatInt, PositiveInteger, Utf8.Sanitized;
    PayloadDecodes(p, quote);
    KeysArePlain();
    var n := PayloadNode(p);
    UsersRoundTrip.FourKeys(SUB, VER, IAT, EXP, Str(Utf8.Sanitized(p.subject)), Number(Strconv.FormatInt(p.version)),
                            Number(Strconv.FormatInt(p.issuedAtUnix)), Number(Strconv.FormatInt(p.expiresAtUnix)));
    NumberComesBack(n, VER, p.version);
    NumberComesBack(n, IAT, p.issuedAtUnix);
    NumberComesBack(n, EXP, p.expiresAtUnix);
    SanitizedIsEmpty(p.subject);
  }

  lemma SanitizedIsEmpty(s: gostring)
    ensures Utf8.Sanitized(s) == [] <==> s == []
  {
    hide Utf8.EncodeRune;
    if s != [] {
      assert Utf8.Runes(s) != [];
    }
  }

  /** The scanner keeps repeated members, but four members of which four different names are found repeat none. */
  lemma ParsedHasNoRepeats(bytes: gostring)
    requires ParsePayload(bytes).Some?
    ensures UniqueKnown(DecodeText(bytes, 2).value.members, [SUB, VER, IAT, EXP])
  {
    hide DecodeText, Strconv.ParseInt, UniqueKnown;
    KeysArePlain();
    var root := DecodeText(bytes, 2).value;
    FourNames(root.members, SUB, VER, IAT, EXP, Get(root, SUB).value, Get(root, VER).value, Get(root, IAT).value, Get(root, EXP).value);
  }

  lemma FourNames(ms: seq<Member>, a: gostring, b: gostring, c: gostring, d: gostring, va: Node, vb: Node, vc: Node, vd: Node)
    requires |ms| == 4 && a != b && a != c && a != d && b != c && b != d && c != d
    requires Member(a, va) in ms && Member(b, vb) in ms && Member(c, vc) in ms && Member(d, vd) in ms
    ensures UniqueKnown(ms, [a, b, c, d])
  {
    hide UniqueKnown;
    var i :| 0 <= i < 4 && ms[i] == Member(a, va);
    var j :| 0 <= j < 4 && ms[j] == Member(b, vb);
    var k :| 0 <= k < 4 && ms[k] == Member(c, vc);
    var l :| 0 <= l < 4 && ms[l] == Member(d, vd);
    FourIndexed(ms, i, j, k, l, a, b, c, d);
  }

  lemma FourIndexed(ms: seq<Member>, i: nat, j: nat, k: nat, l: nat, a: gostring, b: gostring, c: gostring, d: gostring)
    requires |ms| == 4 && i < 4 && j < 4 && k < 4 && l < 4
    requires a != b && a != c && a != d && b != c && b != d && c != d
    requires ms[i].key == a && ms[j].key == b && ms[k].key == c && ms[l].key == d
    ensures UniqueKnown(ms, [a, b, c, d])
  {
    forall x | 0 <= x < 4 ensures ms[x].key in [a, b, c, d] {
      AllFour(i, j, k, l, x);
    }
    forall x, y | 0 <= x < y < 4 ensures ms[x].key != ms[y].key {
      AllFour(i, j, k, l, x);
      AllFour(i, j, k, l, y);
    }
  }

  lemma AllFour(i: int, j: int, k: int, l: int, n: int)
    requires 0 <= i < 4 && 0 <= j < 4 && 0 <= k < 4 && 0 <= l < 4 && 0 <= n < 4
    requires i != j && i != k && i != l && j != k && j != l && k != l
    ensures n == i || n == j || n == k || n == l
  {
  }

  // Signing and verifying.

  datatype Primitives = Primitives(mac: (gostring, gostring) -> gostring, encode: gostring -> gostring,
                                   decode: gostring -> Option<gostring>)

  /** HMAC-SHA256 gives 32 bytes; raw URL Base64 decodes what it encoded and writes no dot. */
  ghost predicate Behaves(p: Primitives) {
    && (forall key, m :: |p.mac(key, m)| == 32)
    && (forall b :: p.decode(p.encode(b)) == Some(b))
    && (forall b :: DOT !in p.encode(b))
  }

  /** Two letters for each byte. */
  function Letters(b: gostring): gostring {
    seq(2 * |b|, i requires 0 <= i < 2 * |b| => 0x61 + (if i % 2 == 0 then Nibbles(b[i / 2]).0 else Nibbles(b[i / 2]).1))
  }

  function Nibbles(c: byte): (p: (int, int))
    ensures 0 <= p.0 < 16 && 0 <= p.1 < 16 && p.0 * 16 + p.1 == c as int
  {
    var n: int := c;
    (n / 16, n % 16)
  }

  predicate AreLetters(s: gostring) {
    |s| % 2 == 0 && forall i :: 0 <= i < |s| ==> 0x61 <= s[i] < 0x71
  }

  function FromLetters(s: gostring): Option<gostring> {
    if !AreLetters(s) then None
    else Some(seq(|s| / 2, i requires 0 <= i < |s| / 2 && AreLetters(s) => LetterPair(s[2 * i], s[2 * i + 1])))
  }

  function LetterPair(a: byte, b: byte): byte
    requires 0x61 <= a < 0x71 && 0x61 <= b < 0x71
  {
    var x: int := a;
    var y: int := b;
    (x - 0x61) * 16 + (y - 0x61)
  }

  function NoMac(key: gostring, m: gostring): (mac: gostring)
    ensures |mac| == 32
  {
    seq(32, i => 0)
  }

  /** Such primitives exist: letters for Base64 and a constant for the MAC. */
  lemma SomePrimitivesBehave()
    ensures Behaves(Primitives(NoMac, Letters, FromLetters))
  {
    forall b: gostring ensures FromLetters(Letters(b)) == Some(b) && DOT !in Letters(b) {
      LettersComeBack(b);
    }
    var mac: (gostring, gostring) -> gostring, encode: gostring -> gostring, decode: gostring -> Option<gostring> :=
      NoMac, Letters, FromLetters;
    hide Letters, FromLetters, NoMac;
    forall key, m ensures |mac(key, m)| == 32 {
      assert mac(key, m) == NoMac(key, m);
    }
    forall b ensures decode(encode(b)) == Some(b) && DOT !in encode(b) {
      assert encode(b) == Letters(b) && decode(Letters(b)) == FromLetters(Letters(b));
    }
  }

  lemma LettersComeBack(b: gostring)
    ensures FromLetters(Letters(b)) == Some(b) && DOT !in Letters(b)
  {
    var s := Letters(b);
    assert AreLetters(s) && |s| / 2 == |b|;
    var r := FromLetters(s).value;
    forall i | 0 <= i < |b| ensures r[i] == b[i] {
      EvenOdd(i);
      assert s[2 * i] == 0x61 + Nibbles(b[i]).0 && s[2 * i + 1] == 0x61 + Nibbles(b[i]).1;
      assert r[i] == LetterPair(s[2 * i], s[2 * i + 1]);
    }
    assert r == b;
  }

  lemma EvenOdd(i: nat)
    ensures (2 * i) % 2 == 0 && (2 * i + 1) % 2 == 1 && (2 * i) / 2 == i == (2 * i + 1) / 2
  {
  }

  /** strings.Split */
  function Split(s: gostring, sep: byte): (parts: seq<gostring>)
    ensures |parts| >= 1
  {
    if s == [] then [[]]
    else
      var rest := Split(s[1..], sep);
      if s[0] == sep then [[]] + rest else [[s[0]] + rest[0]] + rest[1..]
  }

  lemma {:induction false} SplitWhole(s: gostring, sep: byte)
    requires sep !in s
    ensures Split(s, sep) == [s]
    decreases |s|
  {
    if s != [] {
      SplitWhole(s[1..], sep);
      assert s == [s[0]] + s[1..];
    }
  }

  lemma {:induction false} SplitAtFirst(a: gostring, sep: byte, b: gostring)
    requires sep !in a
    ensures Split(a + [sep] + b, sep) == [a] + Split(b, sep)
    decreases |a|
  {
    var s := a + [sep] + b;
    if a == [] {
      assert s[1..] == b;
    } else {
      assert s[1..] == a[1..] + [sep] + b;
      SplitAtFirst(a[1..], sep, b);
      assert a == [a[0]] + a[1..];
    }
  }

  function Token(payload: gostring, secret: gostring, prim: Primitives): gostring {
    prim.encode(payload) + [DOT] + prim.encode(prim.mac(secret, payload))
  }

  /** Nothing stands for the panic on a short secret. */
  method SignToken(p: TokenPayload, secret: gostring, quote: Quoter, prim: Primitives) returns (token: Option<gostring>)
    ensures token == if |secret| < 32 then None else Some(Token(PayloadText(p, quote), secret, prim))
  {
    hide Strconv.FormatInt, Ascii;
    if |secret| < 32 {
      return None;
    }
    var subject := quote(p.subject);
    var version, issuedAt, expiresAt :=
      Strconv.FormatInt(p.version), Strconv.FormatInt(p.issuedAtUnix), Strconv.FormatInt(p.expiresAtUnix);
    var bytes: gostring := [];
    bytes := bytes + OPEN_SUB;
    bytes := bytes + subject;
    bytes := bytes + TO_VER;
    bytes := bytes + version;
    bytes := bytes + TO_IAT;
    bytes := bytes + issuedAt;
    bytes := bytes + TO_EXP;
    bytes := bytes + expiresAt;
    bytes := bytes + [CLOSE_BRACE];
    Flatten([], OPEN_SUB, subject, TO_VER, version, TO_IAT, issuedAt, TO_EXP, expiresAt, [CLOSE_BRACE]);
    assert bytes == [] + PayloadText(p, quote) == PayloadText(p, quote);
    var signature := prim.mac(secret, bytes);
    var payloadSegment, signatureSegment := prim.encode(bytes), prim.encode(signature);
    token := Some(payloadSegment + [DOT] + signatureSegment);
  }

  /** What the lookup table and the clock must say of a signed payload. */
  predicate Admits(p: TokenPayload, now: int, lookup: Lookup) {
    && p.issuedAtUnix < p.expiresAtUnix && Unix(now) < p.expiresAtUnix
    && p.subject in lookup && !lookup[p.subject].disabled && lookup[p.subject].tokenVersion == p.version
  }

  const MAX_TOKEN := 8192

  /** tryVerifyInternal */
  ghost function TryVerify(token: gostring, secret: gostring, now: int, lookup: Lookup, prim: Primitives): Option<TokenPayload> {
    var parts := Split(token, DOT);
    if |token| == 0 || |token| > MAX_TOKEN || |parts| != 2 then None
    else
      var payload, signature := prim.decode(parts[0]), prim.decode(parts[1]);
      if payload.None? || payload.value == [] || signature.None? || |signature.value| != 32 then None
      else if signature.value != prim.mac(secret, payload.value) then None
      else
        var candidate := ParsePayload(payload.value);
        if candidate.None? || !Admits(candidate.value, now, lookup) then None else candidate
  }

  /** A signed payload is accepted, and read back with a clean subject, exactly when the token is short enough,
      every field is positive, and the clock and the table admit it. */
  lemma VerifyOfSigned(p: TokenPayload, secret: gostring, now: int, lookup: Lookup, quote: Quoter, prim: Primitives)
    requires Quotes(quote) && Behaves(prim) && Int64s(p)
    ensures var token := Token(PayloadText(p, quote), secret, prim);
            TryVerify(token, secret, now, lookup, prim) ==
            if |token| <= MAX_TOKEN && AllPositive(p) && Admits(CleanPayload(p), now, lookup) then Some(CleanPayload(p)) else None
  {
    hide ParsePayload, PayloadText, Admits, AllPositive, Split, Quotes;
    var text := PayloadText(p, quote);
    var a, b := prim.encode(text), prim.encode(prim.mac(secret, text));
    SplitAtFirst(a, DOT, b);
    SplitWhole(b, DOT);
    ParseOfPrinted(p, quote);
    TextIsNotEmpty(p, quote);
  }

  lemma TextIsNotEmpty(p: TokenPayload, quote: Quoter)
    ensures PayloadText(p, quote) != []
  {
  }

  /** Nothing is accepted that was not signed with the secret and is not admitted now. */
  lemma AcceptedIsSigned(token: gostring, secret: gostring, now: int, lookup: Lookup, prim: Primitives)
    requires TryVerify(token, secret, now, lookup, prim).Some?
    ensures var p := TryVerify(token, secret, now, lookup, prim).value;
            && Admits(p, now, lookup) && AllPositive(p)
            && exists bytes, a, b :: a + [DOT] + b == token && prim.decode(a) == Some(bytes)
                                    && prim.decode(b) == Some(prim.mac(secret, bytes)) && ParsePayload(bytes) == Some(p)
  {
    hide DecodeText, Strconv.ParseInt, Get;
    SplitJoins(token, DOT);
  }

  lemma {:induction false} SplitJoins(s: gostring, sep: byte)
    ensures |Split(s, sep)| == 1 ==> s == Split(s, sep)[0]
    ensures |Split(s, sep)| == 2 ==> s == Split(s, sep)[0] + [sep] + Split(s, sep)[1]
    decreases |s|
  {
    if s != [] {
      SplitJoins(s[1..], sep);
      assert s == [s[0]] + s[1..];
    }
  }

  /** A token just made for an enabled user verifies until it expires, unless its lifetime ends within the
      second it was made in or its text is too long. */
  lemma FreshTokenVerifies(user: UserRecord, now: int, ttl: int, later: int, secret: gostring, lookup: Lookup, quote: Quoter, prim: Primitives)
    requires Quotes(quote) && Behaves(prim)
    requires user.username in lookup && lookup[user.username] == user && !user.disabled
    requires user.username != [] && Utf8.Valid(user.username) && 0 < user.tokenVersion <= MAX_INT64
    requires 0 < Unix(now) && ttl > 0 && Unix(now + ttl) <= MAX_INT64 && now <= later
    ensures var p := CreateTokenPayload(user, now, ttl).value;
            var token := Token(PayloadText(p, quote), secret, prim);
            TryVerify(token, secret, later, lookup, prim) == Some(p) <==>
            |token| <= MAX_TOKEN && Unix(later) < Unix(now + ttl)
  {
    hide PayloadText, Token, TryVerify, Utf8.Sanitized, Utf8.ValidFrom;
    var p := CreateTokenPayload(user, now, ttl).value;
    assert Unix(now) <= Unix(now + ttl) && Unix(now) <= Unix(later);
    Utf8.SanitizedIdentity(user.username);
    VerifyOfSigned(p, secret, later, lookup, quote, prim);
  }
}
