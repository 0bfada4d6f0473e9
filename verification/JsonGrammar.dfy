/** The grammar the scanner accepts: sections 2 to 7 of RFC 8259, with integer literals only and paired
    surrogate escapes only, as concrete syntax trees. Proved: the scanner accepts exactly the texts of this
    grammar within the depth limit, and answers with the tree a text denotes. */
module JsonGrammar {
  import opened Base
  import opened JsonScanner
  import Utf8

  /** One character of a string literal. */
  datatype Piece =
    | Plain(r: int)                        // the character itself
    | Short(c: byte)                       // \n and the like
    | Unit(h: gostring)                    // \uXXXX, not a surrogate
    | Pair(hi: gostring, lo: gostring)     // \uXXXX\uXXXX, a high and a low surrogate

  ghost predicate WellFormedPiece(p: Piece) {
    match p
    case Plain(r) => Utf8.IsScalar(r) && r >= 0x20 && r != QUOTE as int && r != BACKSLASH as int
    case Short(c) => ShortEscape(c) >= 0
    case Unit(h) => IsHex4(h) && !IsSurrogate(Hex4(h))
    case Pair(hi, lo) => IsHex4(hi) && IsHex4(lo) && 0xD800 <= Hex4(hi) < 0xDC00 && 0xDC00 <= Hex4(lo) < 0xE000
  }

  ghost function PieceBytes(p: Piece): gostring {
    match p
    case Plain(r) => Utf8.EncodeRune(r)
    case Short(c) => [BACKSLASH, c]
    case Unit(h) => [BACKSLASH, LOWER_U] + h
    case Pair(hi, lo) => [BACKSLASH, LOWER_U] + hi + ([BACKSLASH, LOWER_U] + lo)
  }

  ghost function PieceRune(p: Piece): int
    requires WellFormedPiece(p)
  {
    match p
    case Plain(r) => r
    case Short(c) => ShortEscape(c)
    case Unit(h) => Hex4(h)
    case Pair(hi, lo) => CombineSurrogates(Hex4(hi), Hex4(lo))
  }

  ghost predicate WellFormedPieces(ps: seq<Piece>) {
    forall i :: 0 <= i < |ps| ==> WellFormedPiece(ps[i])
  }

  /** The inside of a string literal and its closing quote. */
  ghost function StringBytes(ps: seq<Piece>): gostring {
    if ps == [] then [QUOTE] else PieceBytes(ps[0]) + StringBytes(ps[1..])
  }

  ghost function StringValue(ps: seq<Piece>): gostring
    requires WellFormedPieces(ps)
  {
    if ps == [] then [] else Utf8.EncodeRune(PieceRune(ps[0])) + StringValue(ps[1..])
  }

  ghost predicate AllWs(w: gostring) {
    forall i :: 0 <= i < |w| ==> IsWs(w[i])
  }

  /** Where the digits of an integer literal start. */
  ghost function SignLength(raw: gostring): nat {
    if raw != [] && raw[0] == MINUS then 1 else 0
  }

  /** -?(0|[1-9][0-9]*) */
  ghost predicate IsIntegerLiteral(raw: gostring) {
    var k := SignLength(raw);
    && k < |raw|
    && (forall i :: k <= i < |raw| ==> IsDigit(raw[i]))
    && (raw[k] == ZERO ==> |raw| == k + 1)
  }

  datatype Cst =
    | EmptyObject(ws: gostring)
    | FullObject(members: CstMembers)
    | EmptyArray(ws: gostring)
    | FullArray(items: CstItems)
    | StringLiteral(pieces: seq<Piece>)
    | NumberLiteral(raw: gostring)
    | TrueLiteral
    | FalseLiteral
    | NullLiteral

  /** ws string ws : ws value ws */
  datatype CstMember = CstMember(ws1: gostring, key: seq<Piece>, ws2: gostring, ws3: gostring, val: Cst, ws4: gostring)

  datatype CstMembers = LastMember(m: CstMember) | MoreMembers(m: CstMember, rest: CstMembers)

  datatype CstItem = CstItem(ws1: gostring, val: Cst, ws2: gostring)

  datatype CstItems = LastItem(item: CstItem) | MoreItems(item: CstItem, rest: CstItems)

  ghost predicate WellFormed(c: Cst) {
    match c
    case EmptyObject(ws) => AllWs(ws)
    case FullObject(members) => WellFormedMembers(members)
    case EmptyArray(ws) => AllWs(ws)
    case FullArray(items) => WellFormedItems(items)
    case StringLiteral(pieces) => WellFormedPieces(pieces)
    case NumberLiteral(raw) => IsIntegerLiteral(raw)
    case _ => true
  }

  ghost predicate WellFormedMember(m: CstMember) {
    && AllWs(m.ws1) && WellFormedPieces(m.key) && AllWs(m.ws2) && AllWs(m.ws3) && AllWs(m.ws4)
    && WellFormed(m.val)
  }

  ghost predicate WellFormedMembers(ms: CstMembers) {
    WellFormedMember(ms.m) && (ms.MoreMembers? ==> WellFormedMembers(ms.rest))
  }

  ghost predicate WellFormedItems(its: CstItems) {
    && AllWs(its.item.ws1) && WellFormed(its.item.val) && AllWs(its.item.ws2)
    && (its.MoreItems? ==> WellFormedItems(its.rest))
  }

  ghost function Bytes(c: Cst): gostring {
    match c
    case EmptyObject(ws) => [OPEN_BRACE] + (ws + [CLOSE_BRACE])
    case FullObject(members) => [OPEN_BRACE] + MembersBytes(members)
    case EmptyArray(ws) => [OPEN_BRACKET] + (ws + [CLOSE_BRACKET])
    case FullArray(items) => [OPEN_BRACKET] + ItemsBytes(items)
    case StringLiteral(pieces) => [QUOTE] + StringBytes(pieces)
    case NumberLiteral(raw) => raw
    case TrueLiteral => TRUE
    case FalseLiteral => FALSE
    case NullLiteral => NULL
  }

  ghost function MemberBytes(m: CstMember): gostring {
    m.ws1 + ([QUOTE] + (StringBytes(m.key) + (m.ws2 + ([COLON] + (m.ws3 + (Bytes(m.val) + m.ws4))))))
  }

  ghost function MembersBytes(ms: CstMembers): gostring {
    match ms
    case LastMember(m) => MemberBytes(m) + [CLOSE_BRACE]
    case MoreMembers(m, rest) => MemberBytes(m) + ([COMMA] + MembersBytes(rest))
  }

  ghost function ItemBytes(i: CstItem): gostring {
    i.ws1 + (Bytes(i.val) + i.ws2)
  }

  ghost function ItemsBytes(its: CstItems): gostring {
    match its
    case LastItem(item) => ItemBytes(item) + [CLOSE_BRACKET]
    case MoreItems(item, rest) => ItemBytes(item) + ([COMMA] + ItemsBytes(rest))
  }

  /** The tree a text denotes. */
  ghost function Denotes(c: Cst): Node
    requires WellFormed(c)
  {
    match c
    case EmptyObject(_) => Object([])
    case FullObject(members) => Object(DenotesMembers(members))
    case EmptyArray(_) => Array([])
    case FullArray(items) => Array(DenotesItems(items))
    case StringLiteral(pieces) => Str(StringValue(pieces))
    case NumberLiteral(raw) => Number(raw)
    case TrueLiteral => Bool(true)
    case FalseLiteral => Bool(false)
    case NullLiteral => Null
  }

  ghost function DenotesMember(m: CstMember): Member
    requires WellFormedMember(m)
  {
    Member(StringValue(m.key), Denotes(m.val))
  }

  ghost function DenotesMembers(ms: CstMembers): seq<Member>
    requires WellFormedMembers(ms)
  {
    match ms
    case LastMember(m) => [DenotesMember(m)]
    case MoreMembers(m, rest) => [DenotesMember(m)] + DenotesMembers(rest)
  }

  ghost function DenotesItems(its: CstItems): seq<Node>
    requires WellFormedItems(its)
  {
    match its
    case LastItem(item) => [Denotes(item.val)]
    case MoreItems(item, rest) => [Denotes(item.val)] + DenotesItems(rest)
  }

  /** How deep containers nest. */
  ghost function Depth(c: Cst): nat {
    match c
    case EmptyObject(_) => 1
    case FullObject(members) => 1 + MembersDepth(members)
    case EmptyArray(_) => 1
    case FullArray(items) => 1 + ItemsDepth(items)
    case _ => 0
  }

  ghost function MembersDepth(ms: CstMembers): nat {
    Max(Depth(ms.m.val), if ms.MoreMembers? then MembersDepth(ms.rest) else 0)
  }

  ghost function ItemsDepth(its: CstItems): nat {
    Max(Depth(its.item.val), if its.MoreItems? then ItemsDepth(its.rest) else 0)
  }

  // Every text of the grammar is accepted, with the tree it denotes.

  lemma {:induction false} SkipsWs(s: gostring, pos: nat, w: gostring)
    requires AllWs(w) && Utf8.At(s, pos, w)
    ensures SkipWs(s, pos) == SkipWs(s, pos + |w|)
    decreases |w|
  {
    if w != [] {
      Utf8.AtSplit(s, pos, [w[0]], w[1..]);
      assert w == [w[0]] + w[1..];
      Utf8.AtIndex(s, pos, [w[0]]);
      SkipsWs(s, pos + 1, w[1..]);
    }
  }

  lemma {:induction false} SkipsDigits(s: gostring, pos: nat, end: nat)
    requires pos <= end <= |s|
    requires forall i :: pos <= i < end ==> IsDigit(s[i])
    requires end == |s| || !IsDigit(s[end])
    ensures SkipDigits(s, pos) == end
    decreases end - pos
  {
    if pos < end { SkipsDigits(s, pos + 1, end); }
  }

  /** The bytes after a value in a text: nothing, whitespace, a comma or a closing bracket. */
  ghost predicate Delimited(s: gostring, pos: nat) {
    pos >= |s| || IsWs(s[pos]) || s[pos] == COMMA || s[pos] == CLOSE_BRACE || s[pos] == CLOSE_BRACKET
  }

  lemma NumberAccepted(s: gostring, pos: nat, raw: gostring)
    requires IsIntegerLiteral(raw) && Utf8.At(s, pos, raw) && Delimited(s, pos + |raw|)
    ensures ParseNumber(s, pos) == Got(Number(raw), pos + |raw|)
  {
    Utf8.AtIndex(s, pos, raw);
    assert s[pos..pos + |raw|] == raw;
    hide Utf8.At;
    var first := pos + SignLength(raw);
    forall i | first <= i < pos + |raw| ensures IsDigit(s[i]) {
      assert s[i] == raw[i - pos];
    }
    assert s[pos] == raw[0] && s[first] == raw[SignLength(raw)];
    if s[first] != ZERO {
      SkipsDigits(s, first, pos + |raw|);
    }
  }

  lemma HexAccepted(s: gostring, pos: nat, h: gostring)
    requires IsHex4(h) && Utf8.At(s, pos, [LOWER_U] + h)
    ensures ParseHex4(s, pos) == Got(Hex4(h), pos + 5)
  {
    Utf8.AtSplit(s, pos, [LOWER_U], h);
    Utf8.AtIndex(s, pos, [LOWER_U]);
  }

  lemma UnitAccepted(s: gostring, pos: nat, h: gostring)
    requires IsHex4(h) && Utf8.At(s, pos, [BACKSLASH, LOWER_U] + h)
    ensures s[pos] == BACKSLASH && s[pos + 1] == LOWER_U && ParseHex4(s, pos + 1) == Got(Hex4(h), pos + 6)
  {
    hide Utf8.At, ParseHex4, Hex4;
    assert [BACKSLASH, LOWER_U] + h == [BACKSLASH] + ([LOWER_U] + h);
    Utf8.AtSplit(s, pos, [BACKSLASH], [LOWER_U] + h);
    Utf8.AtByte(s, pos, BACKSLASH);
    HexAccepted(s, pos + 1, h);
    Utf8.AtSplit(s, pos + 1, [LOWER_U], h);
    Utf8.AtByte(s, pos + 1, LOWER_U);
  }

  lemma EscapeAccepted(s: gostring, pos: nat, p: Piece)
    requires WellFormedPiece(p) && (p.Unit? || p.Pair?) && Utf8.At(s, pos, PieceBytes(p))
    ensures s[pos] == BACKSLASH && s[pos + 1] == LOWER_U
    ensures ParseUnicodeEscape(s, pos + 1) == Got(PieceRune(p), pos + |PieceBytes(p)|)
  {
    hide Utf8.At, ParseHex4, Hex4;
    match p
    case Unit(h) =>
      UnitAccepted(s, pos, h);
    case Pair(hi, lo) =>
      assert |hi| == 4 && |lo| == 4;
      Utf8.AtSplit(s, pos, [BACKSLASH, LOWER_U] + hi, [BACKSLASH, LOWER_U] + lo);
      UnitAccepted(s, pos, hi);
      UnitAccepted(s, pos + 6, lo);
  }

  lemma CharAccepted(s: gostring, pos: nat, p: Piece)
    requires WellFormedPiece(p) && Utf8.At(s, pos, PieceBytes(p))
    ensures s[pos] != QUOTE
    ensures ParseChar(s, pos) == Got(PieceRune(p), pos + |PieceBytes(p)|)
  {
    hide ParseUnicodeEscape, Utf8.DecodeRune;
    match p
    case Plain(r) =>
      Utf8.DecodeOfEncode(s, pos, r);
      Utf8.AtIndex(s, pos, PieceBytes(p));
      PlainHead(r);
      assert s[pos + 0] == Utf8.EncodeRune(r)[0];
    case Short(c) =>
      assert PieceBytes(p) == [BACKSLASH] + [c];
      Utf8.AtSplit(s, pos, [BACKSLASH], [c]);
      Utf8.AtByte(s, pos, BACKSLASH);
      Utf8.AtByte(s, pos + 1, c);
      hide Utf8.At;
    case _ =>
      EscapeAccepted(s, pos, p);
  }

  lemma PlainHead(r: int)
    requires WellFormedPiece(Plain(r))
    ensures var b := Utf8.EncodeRune(r)[0]; b >= 0x20 && b != QUOTE && b != BACKSLASH
  {
  }

  lemma {:induction false} StringAccepted(s: gostring, pos: nat, ps: seq<Piece>)
    requires WellFormedPieces(ps) && Utf8.At(s, pos, StringBytes(ps))
    ensures ParseChars(s, pos) == Got(StringValue(ps), pos + |StringBytes(ps)|)
    decreases |ps|
  {
    hide ParseChar, PieceBytes, PieceRune, Utf8.At, Utf8.EncodeRune, WellFormedPiece;
    if ps == [] {
      Utf8.AtByte(s, pos, QUOTE);
    } else {
      Utf8.AtSplit(s, pos, PieceBytes(ps[0]), StringBytes(ps[1..]));
      CharAccepted(s, pos, ps[0]);
      StringAccepted(s, pos + |PieceBytes(ps[0])|, ps[1..]);
    }
  }

  /** A scalar fits at any depth, a container only within the limit. */
  ghost predicate Fits(c: Cst, depth: int, maxDepth: int) {
    Depth(c) == 0 || depth + Depth(c) <= maxDepth + 1
  }

  lemma LiteralAccepted(s: gostring, pos: nat, c: Cst, depth: int, maxDepth: int)
    requires c.TrueLiteral? || c.FalseLiteral? || c.NullLiteral?
    requires Utf8.At(s, pos, Bytes(c))
    ensures ParseValue(s, pos, depth, maxDepth) == Got(Denotes(c), pos + |Bytes(c)|)
  {
    Utf8.AtIndex(s, pos, Bytes(c));
    assert s[pos + 0] == Bytes(c)[0];
    hide ParseObject, ParseArray, ParseNumber, ParseChars;
  }

  /** No value starts with whitespace, a comma or a closing bracket. */
  lemma ValueStart(s: gostring, pos: nat, c: Cst)
    requires WellFormed(c) && Utf8.At(s, pos, Bytes(c))
    ensures pos < |s| && !IsWs(s[pos]) && s[pos] != CLOSE_BRACKET && s[pos] != CLOSE_BRACE
  {
    Utf8.AtIndex(s, pos, Bytes(c));
    hide Utf8.At;
    if c.NumberLiteral? { NumberStart(c.raw); }
    assert Bytes(c) != [];
    assert s[pos + 0] == Bytes(c)[0];
  }

  lemma {:induction false} ValueAccepted(s: gostring, pos: nat, c: Cst, depth: int, maxDepth: int)
    requires WellFormed(c) && Utf8.At(s, pos, Bytes(c))
    requires c.NumberLiteral? ==> Delimited(s, pos + |Bytes(c)|)
    requires Fits(c, depth, maxDepth)
    ensures ParseValue(s, pos, depth, maxDepth) == Got(Denotes(c), pos + |Bytes(c)|)
    decreases c, 0
  {
    hide ParseNumber, ParseChars, ParseMembers, ParseItems, ParseLiteral, SkipWs, Utf8.At;
    match c
    case FullObject(members) =>
      ValueHead(s, pos, c);
      Utf8.AtSplit(s, pos, [OPEN_BRACE], MembersBytes(members));
      MembersStart(s, pos + 1, members);
      MembersAccepted(s, pos + 1, members, depth, maxDepth);
      MembersAfterWs(s, pos + 1, depth, maxDepth);
    case FullArray(items) =>
      ValueHead(s, pos, c);
      Utf8.AtSplit(s, pos, [OPEN_BRACKET], ItemsBytes(items));
      ItemsStart(s, pos + 1, items);
      ItemsAccepted(s, pos + 1, items, depth, maxDepth);
      ItemsAfterWs(s, pos + 1, depth, maxDepth);
    case _ =>
      hide *;
      LeafAccepted(s, pos, c, depth, maxDepth);
  }

  /** A value without anything inside. */
  lemma LeafAccepted(s: gostring, pos: nat, c: Cst, depth: int, maxDepth: int)
    requires WellFormed(c) && Utf8.At(s, pos, Bytes(c)) && !c.FullObject? && !c.FullArray?
    requires c.NumberLiteral? ==> Delimited(s, pos + |Bytes(c)|)
    requires Fits(c, depth, maxDepth)
    ensures ParseValue(s, pos, depth, maxDepth) == Got(Denotes(c), pos + |Bytes(c)|)
  {
    hide ParseNumber, ParseChars, ParseMembers, ParseItems, ParseLiteral, SkipWs, Utf8.At;
    ValueHead(s, pos, c);
    match c
    case EmptyObject(ws) =>
      Utf8.AtSplit(s, pos, [OPEN_BRACE], ws + [CLOSE_BRACE]);
      EmptyAccepted(s, pos + 1, ws, CLOSE_BRACE);
    case EmptyArray(ws) =>
      Utf8.AtSplit(s, pos, [OPEN_BRACKET], ws + [CLOSE_BRACKET]);
      EmptyAccepted(s, pos + 1, ws, CLOSE_BRACKET);
    case StringLiteral(pieces) =>
      Utf8.AtSplit(s, pos, [QUOTE], StringBytes(pieces));
      StringAccepted(s, pos + 1, pieces);
    case NumberLiteral(raw) =>
      NumberStart(raw);
      NumberAccepted(s, pos, raw);
    case _ =>
      LiteralAccepted(s, pos, c, depth, maxDepth);
  }

  /** The first byte of a value decides its kind. */
  lemma ValueHead(s: gostring, pos: nat, c: Cst)
    requires WellFormed(c) && Utf8.At(s, pos, Bytes(c))
    ensures pos < |s|
    ensures c.EmptyObject? || c.FullObject? ==> s[pos] == OPEN_BRACE
    ensures c.EmptyArray? || c.FullArray? ==> s[pos] == OPEN_BRACKET
    ensures c.StringLiteral? ==> s[pos] == QUOTE
    ensures c.NumberLiteral? ==> s[pos] == MINUS || IsDigit(s[pos])
  {
    Utf8.AtIndex(s, pos, Bytes(c));
    hide Utf8.At;
    if c.NumberLiteral? { NumberStart(c.raw); }
    assert Bytes(c) != [];
    assert s[pos + 0] == Bytes(c)[0];
  }

  lemma NumberStart(raw: gostring)
    requires IsIntegerLiteral(raw)
    ensures raw != [] && (raw[0] == MINUS || IsDigit(raw[0]))
  {
  }

  lemma EmptyAccepted(s: gostring, pos: nat, ws: gostring, close: byte)
    requires AllWs(ws) && Utf8.At(s, pos, ws + [close]) && !IsWs(close)
    ensures SkipWs(s, pos) == pos + |ws| < |s| && s[pos + |ws|] == close
  {
    hide Utf8.At;
    Utf8.AtSplit(s, pos, ws, [close]);
    Utf8.AtByte(s, pos + |ws|, close);
    SkipsWs(s, pos, ws);
    Stays(s, pos + |ws|);
  }

  lemma SkipWsTwice(s: gostring, pos: nat)
    requires pos <= |s|
    ensures SkipWs(s, SkipWs(s, pos)) == SkipWs(s, pos)
  {
  }

  lemma MembersAfterWs(s: gostring, pos: nat, depth: int, maxDepth: int)
    requires pos <= |s|
    ensures ParseMembers(s, SkipWs(s, pos), depth, maxDepth) == ParseMembers(s, pos, depth, maxDepth)
  {
    hide SkipWs, ParseChars, ParseValue;
    SkipWsTwice(s, pos);
    assert ParseMember(s, SkipWs(s, pos), depth, maxDepth) == ParseMember(s, pos, depth, maxDepth);
    hide ParseMember;
  }

  lemma ItemsAfterWs(s: gostring, pos: nat, depth: int, maxDepth: int)
    requires pos <= |s|
    ensures ParseItems(s, SkipWs(s, pos), depth, maxDepth) == ParseItems(s, pos, depth, maxDepth)
  {
    hide SkipWs, ParseValue;
    SkipWsTwice(s, pos);
    assert ParseItem(s, SkipWs(s, pos), depth, maxDepth) == ParseItem(s, pos, depth, maxDepth);
    hide ParseItem;
  }

  lemma MembersStart(s: gostring, pos: nat, ms: CstMembers)
    requires WellFormedMembers(ms) && Utf8.At(s, pos, MembersBytes(ms))
    ensures SkipWs(s, pos) < |s| && s[SkipWs(s, pos)] == QUOTE
  {
    hide Utf8.At, SkipWs, MemberBytes;
    MembersSplit(s, pos, ms);
    MemberSplit(s, pos, ms.m);
    SkipsWs(s, pos, ms.m.ws1);
    Stays(s, pos + |ms.m.ws1|);
  }

  lemma MembersSplit(s: gostring, pos: nat, ms: CstMembers)
    requires Utf8.At(s, pos, MembersBytes(ms))
    ensures var end := pos + |MemberBytes(ms.m)|;
            && Utf8.At(s, pos, MemberBytes(ms.m))
            && end < |s| && s[end] == (if ms.LastMember? then CLOSE_BRACE else COMMA)
            && (ms.MoreMembers? ==> Utf8.At(s, end + 1, MembersBytes(ms.rest)))
            && pos + |MembersBytes(ms)| == end + 1 + if ms.MoreMembers? then |MembersBytes(ms.rest)| else 0
  {
    hide Utf8.At, MemberBytes;
    var end := pos + |MemberBytes(ms.m)|;
    match ms
    case LastMember(m) =>
      Utf8.AtSplit(s, pos, MemberBytes(m), [CLOSE_BRACE]);
      Utf8.AtByte(s, end, CLOSE_BRACE);
    case MoreMembers(m, rest) =>
      Utf8.AtSplit(s, pos, MemberBytes(m), [COMMA] + MembersBytes(rest));
      Utf8.AtSplit(s, end, [COMMA], MembersBytes(rest));
      Utf8.AtByte(s, end, COMMA);
  }

  lemma ItemsSplit(s: gostring, pos: nat, its: CstItems)
    requires Utf8.At(s, pos, ItemsBytes(its))
    ensures var end := pos + |ItemBytes(its.item)|;
            && Utf8.At(s, pos, ItemBytes(its.item))
            && end < |s| && s[end] == (if its.LastItem? then CLOSE_BRACKET else COMMA)
            && (its.MoreItems? ==> Utf8.At(s, end + 1, ItemsBytes(its.rest)))
            && pos + |ItemsBytes(its)| == end + 1 + if its.MoreItems? then |ItemsBytes(its.rest)| else 0
  {
    hide Utf8.At, ItemBytes;
    var end := pos + |ItemBytes(its.item)|;
    match its
    case LastItem(i) =>
      Utf8.AtSplit(s, pos, ItemBytes(i), [CLOSE_BRACKET]);
      Utf8.AtByte(s, end, CLOSE_BRACKET);
    case MoreItems(i, rest) =>
      Utf8.AtSplit(s, pos, ItemBytes(i), [COMMA] + ItemsBytes(rest));
      Utf8.AtSplit(s, end, [COMMA], ItemsBytes(rest));
      Utf8.AtByte(s, end, COMMA);
  }

  lemma ItemsStart(s: gostring, pos: nat, its: CstItems)
    requires WellFormedItems(its) && Utf8.At(s, pos, ItemsBytes(its))
    ensures SkipWs(s, pos) < |s| && s[SkipWs(s, pos)] != CLOSE_BRACKET
  {
    hide Utf8.At, SkipWs;
    var i := its.item;
    ItemsSplit(s, pos, its);
    Utf8.AtSplit(s, pos, i.ws1, Bytes(i.val) + i.ws2);
    Utf8.AtSplit(s, pos + |i.ws1|, Bytes(i.val), i.ws2);
    SkipsWs(s, pos, i.ws1);
    ValueStart(s, pos + |i.ws1|, i.val);
    Stays(s, pos + |i.ws1|);
  }

  /** After a value only whitespace stands before the next byte, so it is delimited if that byte is. */
  lemma DelimitedAfterWs(s: gostring, pos: nat, ws: gostring)
    requires AllWs(ws) && Utf8.At(s, pos, ws) && Delimited(s, pos + |ws|)
    ensures Delimited(s, pos)
  {
    if ws != [] { Utf8.AtIndex(s, pos, ws); }
  }

  lemma KeyAccepted(s: gostring, pos: nat, m: CstMember)
    requires WellFormedMember(m) && Utf8.At(s, pos, MemberBytes(m))
    ensures ParseKey(s, pos) == Got(StringValue(m.key), ValuePosition(pos, m))
  {
    hide ParseChars, SkipWs, Utf8.At, MemberBytes, Bytes, StringBytes, WellFormed, StringValue, AllWs, WellFormedPieces;
    var p1 := pos + |m.ws1|;
    var p2 := p1 + 1 + |StringBytes(m.key)|;
    var p3 := p2 + |m.ws2|;
    MemberSplit(s, pos, m);
    SkipsWs(s, pos, m.ws1);
    Stays(s, p1);
    StringAccepted(s, p1 + 1, m.key);
    SkipsWs(s, p2, m.ws2);
    Stays(s, p3);
    SkipsWs(s, p3 + 1, m.ws3);
    ValueStart(s, ValuePosition(pos, m), m.val);
    Stays(s, ValuePosition(pos, m));
  }

  /** Where a member's value starts. */
  ghost function ValuePosition(pos: nat, m: CstMember): nat {
    pos + |m.ws1| + 1 + |StringBytes(m.key)| + |m.ws2| + 1 + |m.ws3|
  }

  lemma {:induction false} MemberAccepted(s: gostring, pos: nat, m: CstMember, depth: int, maxDepth: int)
    requires WellFormedMember(m) && Utf8.At(s, pos, MemberBytes(m))
    requires pos + |MemberBytes(m)| < |s|
    requires s[pos + |MemberBytes(m)|] == COMMA || s[pos + |MemberBytes(m)|] == CLOSE_BRACE
    requires depth + 1 + Depth(m.val) <= maxDepth + 1
    ensures ParseMember(s, pos, depth, maxDepth) == Got(DenotesMember(m), pos + |MemberBytes(m)|)
    decreases m, 1
  {
    hide ParseKey, ParseValue, SkipWs, Utf8.At, MemberBytes, Bytes, StringBytes, WellFormed, StringValue, Denotes, Depth, AllWs, WellFormedPieces;
    var p4 := ValuePosition(pos, m);
    var p5 := p4 + |Bytes(m.val)|;
    MemberSplit(s, pos, m);
    KeyAccepted(s, pos, m);
    DelimitedAfterWs(s, p5, m.ws4);
    ValueAccepted(s, p4, m.val, depth + 1, maxDepth);
    SkipsWs(s, p5, m.ws4);
    Stays(s, p5 + |m.ws4|);
  }

  lemma Stays(s: gostring, pos: nat)
    requires pos < |s| && !IsWs(s[pos])
    ensures SkipWs(s, pos) == pos
  {
  }

  /** Where the parts of a member stand. */
  lemma MemberSplit(s: gostring, pos: nat, m: CstMember)
    requires Utf8.At(s, pos, MemberBytes(m))
    ensures var p1 := pos + |m.ws1|;
            var p2 := p1 + 1 + |StringBytes(m.key)|;
            var p3 := p2 + |m.ws2|;
            var p4 := p3 + 1 + |m.ws3|;
            var p5 := p4 + |Bytes(m.val)|;
            && Utf8.At(s, pos, m.ws1)
            && p1 < |s| && s[p1] == QUOTE
            && Utf8.At(s, p1 + 1, StringBytes(m.key))
            && Utf8.At(s, p2, m.ws2)
            && p3 < |s| && s[p3] == COLON
            && Utf8.At(s, p3 + 1, m.ws3)
            && Utf8.At(s, p4, Bytes(m.val))
            && Utf8.At(s, p5, m.ws4)
            && p5 + |m.ws4| == pos + |MemberBytes(m)|
  {
    hide Utf8.At;
    var p1 := pos + |m.ws1|;
    var p2 := p1 + 1 + |StringBytes(m.key)|;
    var p3 := p2 + |m.ws2|;
    var p4 := p3 + 1 + |m.ws3|;
    var t4 := Bytes(m.val) + m.ws4;
    var t3 := [COLON] + (m.ws3 + t4);
    var t2 := m.ws2 + t3;
    var t1 := [QUOTE] + (StringBytes(m.key) + t2);
    Utf8.AtSplit(s, pos, m.ws1, t1);
    Utf8.AtSplit(s, p1, [QUOTE], StringBytes(m.key) + t2);
    Utf8.AtByte(s, p1, QUOTE);
    Utf8.AtSplit(s, p1 + 1, StringBytes(m.key), t2);
    Utf8.AtSplit(s, p2, m.ws2, t3);
    Utf8.AtSplit(s, p3, [COLON], m.ws3 + t4);
    Utf8.AtByte(s, p3, COLON);
    Utf8.AtSplit(s, p3 + 1, m.ws3, t4);
    Utf8.AtSplit(s, p4, Bytes(m.val), m.ws4);
  }

  lemma {:induction false} MembersAccepted(s: gostring, pos: nat, ms: CstMembers, depth: int, maxDepth: int)
    requires WellFormedMembers(ms) && Utf8.At(s, pos, MembersBytes(ms))
    requires depth + 1 + MembersDepth(ms) <= maxDepth + 1
    ensures ParseMembers(s, pos, depth, maxDepth) == Got(DenotesMembers(ms), pos + |MembersBytes(ms)|)
    decreases ms, 2
  {
    hide ParseMember, MemberBytes, WellFormedMember, DenotesMember, Utf8.At;
    MembersSplit(s, pos, ms);
    MemberAccepted(s, pos, ms.m, depth, maxDepth);
    if ms.MoreMembers? {
      MembersAccepted(s, pos + |MemberBytes(ms.m)| + 1, ms.rest, depth, maxDepth);
    }
  }

  lemma {:induction false} ItemAccepted(s: gostring, pos: nat, i: CstItem, depth: int, maxDepth: int)
    requires AllWs(i.ws1) && WellFormed(i.val) && AllWs(i.ws2) && Utf8.At(s, pos, ItemBytes(i))
    requires pos + |ItemBytes(i)| < |s|
    requires s[pos + |ItemBytes(i)|] == COMMA || s[pos + |ItemBytes(i)|] == CLOSE_BRACKET
    requires depth + 1 + Depth(i.val) <= maxDepth + 1
    ensures ParseItem(s, pos, depth, maxDepth) == Got(Denotes(i.val), pos + |ItemBytes(i)|)
    decreases i, 1
  {
    hide ParseValue, SkipWs, Utf8.At, Bytes, WellFormed;
    var p1 := pos + |i.ws1|;
    var p2 := p1 + |Bytes(i.val)|;
    Utf8.AtSplit(s, pos, i.ws1, Bytes(i.val) + i.ws2);
    Utf8.AtSplit(s, p1, Bytes(i.val), i.ws2);
    SkipsWs(s, pos, i.ws1);
    ValueStart(s, p1, i.val);
    Stays(s, p1);
    DelimitedAfterWs(s, p2, i.ws2);
    ValueAccepted(s, p1, i.val, depth + 1, maxDepth);
    SkipsWs(s, p2, i.ws2);
    Stays(s, p2 + |i.ws2|);
  }

  lemma {:induction false} ItemsAccepted(s: gostring, pos: nat, its: CstItems, depth: int, maxDepth: int)
    requires WellFormedItems(its) && Utf8.At(s, pos, ItemsBytes(its))
    requires depth + 1 + ItemsDepth(its) <= maxDepth + 1
    ensures ParseItems(s, pos, depth, maxDepth) == Got(DenotesItems(its), pos + |ItemsBytes(its)|)
    decreases its, 2
  {
    hide ParseItem, ItemBytes, Utf8.At, WellFormed;
    ItemsSplit(s, pos, its);
    ItemAccepted(s, pos, its.item, depth, maxDepth);
    if its.MoreItems? {
      ItemsAccepted(s, pos + |ItemBytes(its.item)| + 1, its.rest, depth, maxDepth);
    }
  }

  // Every accepted text is a text of the grammar.

  lemma {:induction false} ValidAfterAscii(s: gostring, pos: nat, end: nat)
    requires pos <= end <= |s| && Utf8.ValidFrom(s, pos)
    requires forall i :: pos <= i < end ==> s[i] < 0x80
    ensures Utf8.ValidFrom(s, end)
    decreases end - pos
  {
    if pos < end { ValidAfterAscii(s, pos + 1, end); }
  }

  lemma AtSlice(s: gostring, pos: nat, end: nat)
    requires pos <= end <= |s|
    ensures Utf8.At(s, pos, s[pos..end])
  {
  }

  lemma WsSound(s: gostring, pos: nat) returns (w: gostring)
    requires pos <= |s| && Utf8.ValidFrom(s, pos)
    ensures AllWs(w) && Utf8.At(s, pos, w) && SkipWs(s, pos) == pos + |w|
    ensures Utf8.ValidFrom(s, SkipWs(s, pos))
  {
    w := s[pos..SkipWs(s, pos)];
    forall i | 0 <= i < |w| ensures IsWs(w[i]) {
      assert w[i] == s[pos + i];
    }
    ValidAfterAscii(s, pos, SkipWs(s, pos));
  }

  lemma NumberSound(s: gostring, pos: nat)
    requires pos < |s| && ParseNumber(s, pos).Got? && Utf8.ValidFrom(s, pos)
    ensures var r := ParseNumber(s, pos);
            IsIntegerLiteral(r.value.raw) && Utf8.At(s, pos, r.value.raw) && Utf8.ValidFrom(s, r.next)
  {
    var end := ParseNumber(s, pos).next;
    var raw := s[pos..end];
    var first := if s[pos] == MINUS then pos + 1 else pos;
    forall i | first <= i < end ensures IsDigit(s[i]) {}
    forall i | 0 <= i < |raw| ensures raw[i] == s[pos + i] {}
    ValidAfterAscii(s, pos, end);
  }

  lemma HexSound(s: gostring, pos: nat) returns (h: gostring)
    requires ParseHex4(s, pos).Got? && Utf8.ValidFrom(s, pos)
    ensures IsHex4(h) && Utf8.At(s, pos, [LOWER_U] + h) && Hex4(h) == ParseHex4(s, pos).value
    ensures Utf8.ValidFrom(s, pos + 5)
  {
    h := s[pos + 1..pos + 5];
    AtSlice(s, pos + 1, pos + 5);
    Utf8.AtByte(s, pos, LOWER_U);
    Utf8.AtSplit(s, pos, [LOWER_U], h);
    HexIsAscii(h);
    forall i | pos <= i < pos + 5 ensures s[i] < 0x80 {
      if i > pos { assert s[i] == h[i - pos - 1]; }
    }
    ValidAfterAscii(s, pos, pos + 5);
  }

  lemma HexIsAscii(h: gostring)
    requires IsHex4(h)
    ensures forall i :: 0 <= i < 4 ==> h[i] < 0x80
  {
  }

  lemma UnitSound(s: gostring, pos: nat) returns (h: gostring)
    requires pos + 1 < |s| && s[pos] == BACKSLASH && Utf8.ValidFrom(s, pos + 1) && ParseHex4(s, pos + 1).Got?
    ensures IsHex4(h) && Utf8.At(s, pos, [BACKSLASH, LOWER_U] + h) && Hex4(h) == ParseHex4(s, pos + 1).value
    ensures Utf8.ValidFrom(s, pos + 6)
  {
    hide Utf8.At, Hex4, Utf8.ValidFrom;
    h := HexSound(s, pos + 1);
    Utf8.AtByte(s, pos, BACKSLASH);
    Utf8.AtSplit(s, pos, [BACKSLASH], [LOWER_U] + h);
    assert [BACKSLASH] + ([LOWER_U] + h) == [BACKSLASH, LOWER_U] + h;
  }

  lemma EscapeSound(s: gostring, pos: nat) returns (p: Piece)
    requires pos + 1 < |s| && s[pos] == BACKSLASH && Utf8.ValidFrom(s, pos + 1)
    requires ParseUnicodeEscape(s, pos + 1).Got?
    ensures WellFormedPiece(p) && Utf8.At(s, pos, PieceBytes(p)) && PieceRune(p) == ParseUnicodeEscape(s, pos + 1).value
    ensures ParseUnicodeEscape(s, pos + 1).next == pos + |PieceBytes(p)|
    ensures Utf8.ValidFrom(s, pos + |PieceBytes(p)|)
  {
    hide Utf8.At, ParseHex4, Hex4, Utf8.ValidFrom;
    var h := UnitSound(s, pos);
    if !IsSurrogate(ParseHex4(s, pos + 1).value) {
      p := Unit(h);
    } else {
      ValidByte(s, pos + 6);
      var l := UnitSound(s, pos + 6);
      p := Pair(h, l);
      Utf8.AtSplit(s, pos, [BACKSLASH, LOWER_U] + h, [BACKSLASH, LOWER_U] + l);
    }
  }

  lemma ValidByte(s: gostring, pos: nat)
    requires pos < |s| && s[pos] < 0x80 && Utf8.ValidFrom(s, pos)
    ensures Utf8.ValidFrom(s, pos + 1)
  {
  }

  lemma CharSound(s: gostring, pos: nat) returns (p: Piece)
    requires pos < |s| && Utf8.ValidFrom(s, pos) && ParseChar(s, pos).Got?
    ensures WellFormedPiece(p) && Utf8.At(s, pos, PieceBytes(p)) && PieceRune(p) == ParseChar(s, pos).value
    ensures ParseChar(s, pos).next == pos + |PieceBytes(p)|
    ensures Utf8.ValidFrom(s, pos + |PieceBytes(p)|)
  {
    hide ParseUnicodeEscape, Utf8.DecodeRune, Utf8.EncodeRune;
    if s[pos] != BACKSLASH {
      p := Plain(Utf8.DecodeRune(s, pos).r);
      Utf8.EncodeOfDecode(s, pos);
    } else if s[pos + 1] == LOWER_U {
      ValidByte(s, pos);
      p := EscapeSound(s, pos);
    } else {
      ValidByte(s, pos);
      ValidByte(s, pos + 1);
      p := Short(s[pos + 1]);
      assert s[pos..pos + 2] == [s[pos], s[pos + 1]];
    }
  }

  lemma {:induction false} StringSound(s: gostring, pos: nat) returns (ps: seq<Piece>)
    requires pos <= |s| && Utf8.ValidFrom(s, pos) && ParseChars(s, pos).Got?
    ensures WellFormedPieces(ps) && Utf8.At(s, pos, StringBytes(ps)) && StringValue(ps) == ParseChars(s, pos).value
    ensures ParseChars(s, pos).next == pos + |StringBytes(ps)|
    ensures Utf8.ValidFrom(s, ParseChars(s, pos).next)
    decreases |s| - pos
  {
    hide ParseChar, PieceBytes, PieceRune, Utf8.EncodeRune, Utf8.At, WellFormedPiece, Utf8.ValidFrom;
    if s[pos] == QUOTE {
      ps := [];
      Utf8.AtByte(s, pos, QUOTE);
      ValidByte(s, pos);
    } else {
      var p := CharSound(s, pos);
      var rest := StringSound(s, ParseChar(s, pos).next);
      ps := [p] + rest;
      assert ps[1..] == rest;
      Utf8.AtSplit(s, pos, PieceBytes(p), StringBytes(rest));
    }
  }

  lemma LiteralSound(s: gostring, pos: nat, c: Cst, depth: int, maxDepth: int)
    requires c.TrueLiteral? || c.FalseLiteral? || c.NullLiteral?
    requires pos < |s| && Utf8.ValidFrom(s, pos)
    requires s[pos] == Bytes(c)[0] && ParseValue(s, pos, depth, maxDepth).Got?
    ensures ParseValue(s, pos, depth, maxDepth) == Got(Denotes(c), pos + |Bytes(c)|)
    ensures Utf8.At(s, pos, Bytes(c)) && Utf8.ValidFrom(s, pos + |Bytes(c)|)
  {
    assert Utf8.At(s, pos, Bytes(c));
    Utf8.AtIndex(s, pos, Bytes(c));
    forall i | pos <= i < pos + |Bytes(c)| ensures s[i] < 0x80 {
      assert s[pos + (i - pos)] == Bytes(c)[i - pos];
    }
    ValidAfterAscii(s, pos, pos + |Bytes(c)|);
  }

  /** What a sound parse of a value gives. */
  ghost predicate Derives(s: gostring, pos: nat, c: Cst, depth: int, maxDepth: int, r: Parse<Node>) {
    && WellFormed(c) && Utf8.At(s, pos, Bytes(c)) && Fits(c, depth, maxDepth)
    && r == Got(Denotes(c), pos + |Bytes(c)|)
    && Utf8.ValidFrom(s, pos + |Bytes(c)|)
  }

  lemma {:induction false} ValueSound(s: gostring, pos: nat, depth: int, maxDepth: int) returns (c: Cst)
    requires pos <= |s| && Utf8.ValidFrom(s, pos) && ParseValue(s, pos, depth, maxDepth).Got?
    ensures Derives(s, pos, c, depth, maxDepth, ParseValue(s, pos, depth, maxDepth))
    decreases |s| - pos, 2
  {
    hide ParseObject, ParseArray, Derives, Utf8.ValidFrom;
    var b := s[pos];
    if b == OPEN_BRACE {
      c := ObjectSound(s, pos, depth, maxDepth);
    } else if b == OPEN_BRACKET {
      c := ArraySound(s, pos, depth, maxDepth);
    } else {
      hide ParseValue;
      c := ScalarSound(s, pos, depth, maxDepth);
    }
  }

  lemma ScalarSound(s: gostring, pos: nat, depth: int, maxDepth: int) returns (c: Cst)
    requires pos < |s| && s[pos] != OPEN_BRACE && s[pos] != OPEN_BRACKET
    requires Utf8.ValidFrom(s, pos) && ParseValue(s, pos, depth, maxDepth).Got?
    ensures Derives(s, pos, c, depth, maxDepth, ParseValue(s, pos, depth, maxDepth))
  {
    hide Derives, Utf8.ValidFrom, ParseLiteral, ParseNumber, ParseChars;
    var b := s[pos];
    if b == QUOTE {
      c := QuotedSound(s, pos, depth, maxDepth);
    } else if b == LOWER_T || b == LOWER_F || b == LOWER_N {
      c := if b == LOWER_T then TrueLiteral else if b == LOWER_F then FalseLiteral else NullLiteral;
      LiteralDerives(s, pos, c, depth, maxDepth);
    } else {
      c := NumberLiteral(ParseNumber(s, pos).value.raw);
      NumberDerives(s, pos, c, depth, maxDepth);
    }
  }

  lemma QuotedSound(s: gostring, pos: nat, depth: int, maxDepth: int) returns (c: Cst)
    requires pos < |s| && s[pos] == QUOTE && Utf8.ValidFrom(s, pos) && ParseValue(s, pos, depth, maxDepth).Got?
    ensures Derives(s, pos, c, depth, maxDepth, ParseValue(s, pos, depth, maxDepth))
  {
    hide Utf8.At, Utf8.ValidFrom, ParseChars, StringBytes;
    ValidByte(s, pos);
    var ps := StringSound(s, pos + 1);
    c := StringLiteral(ps);
    Utf8.AtByte(s, pos, QUOTE);
    Utf8.AtSplit(s, pos, [QUOTE], StringBytes(ps));
  }

  lemma LiteralDerives(s: gostring, pos: nat, c: Cst, depth: int, maxDepth: int)
    requires c.TrueLiteral? || c.FalseLiteral? || c.NullLiteral?
    requires pos < |s| && Utf8.ValidFrom(s, pos)
    requires s[pos] == Bytes(c)[0] && ParseValue(s, pos, depth, maxDepth).Got?
    ensures Derives(s, pos, c, depth, maxDepth, ParseValue(s, pos, depth, maxDepth))
  {
    LiteralSound(s, pos, c, depth, maxDepth);
    hide ParseValue, Utf8.At, Utf8.ValidFrom;
  }

  lemma NumberDerives(s: gostring, pos: nat, c: Cst, depth: int, maxDepth: int)
    requires pos < |s| && Utf8.ValidFrom(s, pos) && (s[pos] == MINUS || IsDigit(s[pos]))
    requires ParseValue(s, pos, depth, maxDepth).Got? && ParseNumber(s, pos).Got? && ParseNumber(s, pos).value.Number?
    requires c == NumberLiteral(ParseNumber(s, pos).value.raw)
    ensures Derives(s, pos, c, depth, maxDepth, ParseValue(s, pos, depth, maxDepth))
  {
    hide Utf8.At, Utf8.ValidFrom, ParseNumber;
    NumberSound(s, pos);
  }

  lemma EmptyObjectDerives(s: gostring, pos: nat, w: gostring, depth: int, maxDepth: int)
    requires pos < |s| && s[pos] == OPEN_BRACE && Utf8.ValidFrom(s, pos + 1) && depth <= maxDepth
    requires var p := SkipWs(s, pos + 1);
             p < |s| && s[p] == CLOSE_BRACE && AllWs(w) && Utf8.At(s, pos + 1, w) && p == pos + 1 + |w| && Utf8.ValidFrom(s, p)
    ensures Derives(s, pos, EmptyObject(w), depth, maxDepth, ParseObject(s, pos, depth, maxDepth))
  {
    hide Utf8.At, Utf8.ValidFrom, SkipWs, AllWs, ParseMembers;
    var p := SkipWs(s, pos + 1);
    Utf8.AtByte(s, pos, OPEN_BRACE);
    Utf8.AtByte(s, p, CLOSE_BRACE);
    Utf8.AtSplit(s, pos + 1, w, [CLOSE_BRACE]);
    Utf8.AtSplit(s, pos, [OPEN_BRACE], w + [CLOSE_BRACE]);
    ValidByte(s, p);
  }

  lemma {:induction false} ObjectSound(s: gostring, pos: nat, depth: int, maxDepth: int) returns (c: Cst)
    requires pos < |s| && s[pos] == OPEN_BRACE && Utf8.ValidFrom(s, pos)
    requires ParseObject(s, pos, depth, maxDepth).Got?
    ensures Derives(s, pos, c, depth, maxDepth, ParseObject(s, pos, depth, maxDepth))
    decreases |s| - pos, 1
  {
    hide Utf8.At, Utf8.ValidFrom, ParseMembers, SkipWs, MembersBytes, WellFormedMembers, DenotesMembers, MembersDepth, AllWs;
    ValidByte(s, pos);
    Utf8.AtByte(s, pos, OPEN_BRACE);
    var w := WsSound(s, pos + 1);
    var p := SkipWs(s, pos + 1);
    if p < |s| && s[p] == CLOSE_BRACE {
      c := EmptyObject(w);
      EmptyObjectDerives(s, pos, w, depth, maxDepth);
    } else {
      MembersAfterWs(s, pos + 1, depth, maxDepth);
      var ms := MembersSound(s, pos + 1, depth, maxDepth);
      c := FullObject(ms);
      Utf8.AtSplit(s, pos, [OPEN_BRACE], MembersBytes(ms));
    }
  }

  lemma EmptyArrayDerives(s: gostring, pos: nat, w: gostring, depth: int, maxDepth: int)
    requires pos < |s| && s[pos] == OPEN_BRACKET && Utf8.ValidFrom(s, pos + 1) && depth <= maxDepth
    requires var p := SkipWs(s, pos + 1);
             p < |s| && s[p] == CLOSE_BRACKET && AllWs(w) && Utf8.At(s, pos + 1, w) && p == pos + 1 + |w| && Utf8.ValidFrom(s, p)
    ensures Derives(s, pos, EmptyArray(w), depth, maxDepth, ParseArray(s, pos, depth, maxDepth))
  {
    hide Utf8.At, Utf8.ValidFrom, SkipWs, AllWs, ParseItems;
    var p := SkipWs(s, pos + 1);
    Utf8.AtByte(s, pos, OPEN_BRACKET);
    Utf8.AtByte(s, p, CLOSE_BRACKET);
    Utf8.AtSplit(s, pos + 1, w, [CLOSE_BRACKET]);
    Utf8.AtSplit(s, pos, [OPEN_BRACKET], w + [CLOSE_BRACKET]);
    ValidByte(s, p);
  }

  lemma {:induction false} ArraySound(s: gostring, pos: nat, depth: int, maxDepth: int) returns (c: Cst)
    requires pos < |s| && s[pos] == OPEN_BRACKET && Utf8.ValidFrom(s, pos)
    requires ParseArray(s, pos, depth, maxDepth).Got?
    ensures Derives(s, pos, c, depth, maxDepth, ParseArray(s, pos, depth, maxDepth))
    decreases |s| - pos, 1
  {
    hide Utf8.At, Utf8.ValidFrom, ParseItems, SkipWs, ItemsBytes, WellFormedItems, DenotesItems, ItemsDepth, AllWs;
    ValidByte(s, pos);
    Utf8.AtByte(s, pos, OPEN_BRACKET);
    var w := WsSound(s, pos + 1);
    var p := SkipWs(s, pos + 1);
    if p < |s| && s[p] == CLOSE_BRACKET {
      c := EmptyArray(w);
      EmptyArrayDerives(s, pos, w, depth, maxDepth);
    } else {
      ItemsAfterWs(s, pos + 1, depth, maxDepth);
      var its := ItemsSound(s, pos + 1, depth, maxDepth);
      c := FullArray(its);
      Utf8.AtSplit(s, pos, [OPEN_BRACKET], ItemsBytes(its));
    }
  }

  lemma {:induction false} MembersSound(s: gostring, pos: nat, depth: int, maxDepth: int) returns (ms: CstMembers)
    requires pos <= |s| && depth <= maxDepth && Utf8.ValidFrom(s, pos) && ParseMembers(s, pos, depth, maxDepth).Got?
    ensures WellFormedMembers(ms) && Utf8.At(s, pos, MembersBytes(ms)) && depth + MembersDepth(ms) <= maxDepth
    ensures ParseMembers(s, pos, depth, maxDepth) == Got(DenotesMembers(ms), pos + |MembersBytes(ms)|)
    ensures Utf8.ValidFrom(s, pos + |MembersBytes(ms)|)
    decreases |s| - pos, 1
  {
    hide ParseMember, MemberBytes, WellFormedMember, DenotesMember, Utf8.At, Utf8.ValidFrom;
    var m := MemberSound(s, pos, depth, maxDepth);
    var end := pos + |MemberBytes(m)|;
    ValidByte(s, end);
    Utf8.AtByte(s, end, s[end]);
    if s[end] == CLOSE_BRACE {
      ms := LastMember(m);
      Utf8.AtSplit(s, pos, MemberBytes(m), [CLOSE_BRACE]);
    } else {
      var rest := MembersSound(s, end + 1, depth, maxDepth);
      ms := MoreMembers(m, rest);
      Utf8.AtSplit(s, end, [COMMA], MembersBytes(rest));
      Utf8.AtSplit(s, pos, MemberBytes(m), [COMMA] + MembersBytes(rest));
    }
  }

  lemma {:induction false} MemberSound(s: gostring, pos: nat, depth: int, maxDepth: int) returns (m: CstMember)
    requires pos <= |s| && depth <= maxDepth && Utf8.ValidFrom(s, pos) && ParseMember(s, pos, depth, maxDepth).Got?
    ensures WellFormedMember(m) && Utf8.At(s, pos, MemberBytes(m)) && depth + Depth(m.val) <= maxDepth
    ensures ParseMember(s, pos, depth, maxDepth) == Got(DenotesMember(m), pos + |MemberBytes(m)|)
    ensures Utf8.ValidFrom(s, pos + |MemberBytes(m)|)
    decreases |s| - pos, 0
  {
    hide ParseKey, ParseValue, Utf8.At, Utf8.ValidFrom, SkipWs;
    var w1, ps, w2, w3 := KeySound(s, pos);
    var p := ParseKey(s, pos).next;
    var val := ValueSound(s, p, depth + 1, maxDepth);
    var w4 := WsSound(s, p + |Bytes(val)|);
    m := CstMember(w1, ps, w2, w3, val, w4);
    Utf8.AtSplit(s, p, Bytes(val), w4);
    KeyPrefix(s, pos, m);
  }

  /** The bytes of a member up to its value. */
  ghost function KeyBytes(w1: gostring, ps: seq<Piece>, w2: gostring, w3: gostring): gostring {
    w1 + ([QUOTE] + (StringBytes(ps) + (w2 + ([COLON] + w3))))
  }

  lemma KeyPrefix(s: gostring, pos: nat, m: CstMember)
    ensures MemberBytes(m) == KeyBytes(m.ws1, m.key, m.ws2, m.ws3) + (Bytes(m.val) + m.ws4)
    ensures Utf8.At(s, pos, MemberBytes(m)) <==>
            Utf8.At(s, pos, KeyBytes(m.ws1, m.key, m.ws2, m.ws3)) && Utf8.At(s, ValuePosition(pos, m), Bytes(m.val) + m.ws4)
  {
    hide Bytes, StringBytes, Utf8.At;
    Utf8.AtSplit(s, pos, KeyBytes(m.ws1, m.key, m.ws2, m.ws3), Bytes(m.val) + m.ws4);
  }

  lemma KeySound(s: gostring, pos: nat) returns (w1: gostring, ps: seq<Piece>, w2: gostring, w3: gostring)
    requires pos <= |s| && Utf8.ValidFrom(s, pos) && ParseKey(s, pos).Got?
    ensures AllWs(w1) && WellFormedPieces(ps) && AllWs(w2) && AllWs(w3)
    ensures Utf8.At(s, pos, KeyBytes(w1, ps, w2, w3))
    ensures ParseKey(s, pos) == Got(StringValue(ps), pos + |KeyBytes(w1, ps, w2, w3)|)
    ensures Utf8.ValidFrom(s, ParseKey(s, pos).next)
  {
    hide Utf8.At, Utf8.ValidFrom, SkipWs, ParseChars, StringBytes, StringValue, AllWs, WellFormedPieces;
    w1 := WsSound(s, pos);
    var p := SkipWs(s, pos);
    ValidByte(s, p);
    ps := StringSound(s, p + 1);
    var p2 := ParseChars(s, p + 1).next;
    w2 := WsSound(s, p2);
    var q := SkipWs(s, p2);
    ValidByte(s, q);
    w3 := WsSound(s, q + 1);
    Utf8.AtByte(s, q, COLON);
    Utf8.AtSplit(s, q, [COLON], w3);
    Utf8.AtSplit(s, p2, w2, [COLON] + w3);
    Utf8.AtSplit(s, p + 1, StringBytes(ps), w2 + ([COLON] + w3));
    Utf8.AtByte(s, p, QUOTE);
    Utf8.AtSplit(s, p, [QUOTE], StringBytes(ps) + (w2 + ([COLON] + w3)));
    Utf8.AtSplit(s, pos, w1, [QUOTE] + (StringBytes(ps) + (w2 + ([COLON] + w3))));
  }

  lemma {:induction false} ItemSound(s: gostring, pos: nat, depth: int, maxDepth: int) returns (i: CstItem)
    requires pos <= |s| && depth <= maxDepth && Utf8.ValidFrom(s, pos) && ParseItem(s, pos, depth, maxDepth).Got?
    ensures AllWs(i.ws1) && WellFormed(i.val) && AllWs(i.ws2)
    ensures Utf8.At(s, pos, ItemBytes(i)) && depth + Depth(i.val) <= maxDepth
    ensures ParseItem(s, pos, depth, maxDepth) == Got(Denotes(i.val), pos + |ItemBytes(i)|)
    ensures Utf8.ValidFrom(s, pos + |ItemBytes(i)|)
    decreases |s| - pos, 3
  {
    hide ParseValue, Utf8.At, Utf8.ValidFrom, SkipWs, AllWs;
    var w1 := WsSound(s, pos);
    var p := SkipWs(s, pos);
    var val := ValueSound(s, p, depth + 1, maxDepth);
    var w2 := WsSound(s, p + |Bytes(val)|);
    i := CstItem(w1, val, w2);
    Utf8.AtSplit(s, p, Bytes(val), w2);
    Utf8.AtSplit(s, pos, w1, Bytes(val) + w2);
  }

  lemma {:induction false} ItemsSound(s: gostring, pos: nat, depth: int, maxDepth: int) returns (its: CstItems)
    requires pos <= |s| && depth <= maxDepth && Utf8.ValidFrom(s, pos) && ParseItems(s, pos, depth, maxDepth).Got?
    ensures WellFormedItems(its) && Utf8.At(s, pos, ItemsBytes(its)) && depth + ItemsDepth(its) <= maxDepth
    ensures ParseItems(s, pos, depth, maxDepth) == Got(DenotesItems(its), pos + |ItemsBytes(its)|)
    ensures Utf8.ValidFrom(s, pos + |ItemsBytes(its)|)
    decreases |s| - pos, 4
  {
    hide ParseItem, ItemBytes, Utf8.At, Utf8.ValidFrom, AllWs;
    var i := ItemSound(s, pos, depth, maxDepth);
    var end := pos + |ItemBytes(i)|;
    ValidByte(s, end);
    Utf8.AtByte(s, end, s[end]);
    if s[end] == CLOSE_BRACKET {
      its := LastItem(i);
      Utf8.AtSplit(s, pos, ItemBytes(i), [CLOSE_BRACKET]);
    } else {
      var rest := ItemsSound(s, end + 1, depth, maxDepth);
      its := MoreItems(i, rest);
      Utf8.AtSplit(s, end, [COMMA], ItemsBytes(rest));
      Utf8.AtSplit(s, pos, ItemBytes(i), [COMMA] + ItemsBytes(rest));
    }
  }

  // The two halves together.

  /** A JSON text: one value with whitespace around it. */
  datatype Text = Text(ws1: gostring, value: Cst, ws2: gostring)

  ghost function TextBytes(t: Text): gostring {
    t.ws1 + (Bytes(t.value) + t.ws2)
  }

  ghost predicate IsTextOf(t: Text, frame: gostring, maxDepth: int) {
    && AllWs(t.ws1) && WellFormed(t.value) && AllWs(t.ws2)
    && frame == TextBytes(t)
    && Depth(t.value) <= Max(maxDepth, 0)
  }

  lemma TextAccepted(t: Text, frame: gostring, maxDepth: int)
    requires IsTextOf(t, frame, maxDepth)
    ensures DecodeText(frame, maxDepth) == Some(Denotes(t.value))
  {
    hide ParseValue, SkipWs, Bytes, Denotes, WellFormed, Depth, AllWs, Utf8.At, Utf8.ValidFrom;
    TextIsUtf8(t, frame, maxDepth);
    var p1 := |t.ws1|;
    var p2 := p1 + |Bytes(t.value)|;
    WholeFrame(frame, frame);
    Utf8.AtSplit(frame, 0, t.ws1, Bytes(t.value) + t.ws2);
    Utf8.AtSplit(frame, p1, Bytes(t.value), t.ws2);
    SkipsWs(frame, 0, t.ws1);
    ValueStart(frame, p1, t.value);
    Stays(frame, p1);
    assert Delimited(frame, p2 + |t.ws2|);
    DelimitedAfterWs(frame, p2, t.ws2);
    ValueAccepted(frame, p1, t.value, 1, maxDepth);
    SkipsWs(frame, p2, t.ws2);
    AtEnd(frame);
  }

  lemma AtEnd(frame: gostring)
    ensures SkipWs(frame, |frame|) == |frame|
  {
  }

  lemma TextSound(frame: gostring, maxDepth: int) returns (t: Text)
    requires DecodeText(frame, maxDepth).Some?
    ensures IsTextOf(t, frame, maxDepth) && DecodeText(frame, maxDepth) == Some(Denotes(t.value))
  {
    hide ParseValue, SkipWs, Bytes, Denotes, WellFormed, Depth, AllWs, Utf8.At, Utf8.ValidFrom;
    var w1 := WsSound(frame, 0);
    var p := SkipWs(frame, 0);
    var c := ValueSound(frame, p, 1, maxDepth);
    var w2 := WsSound(frame, p + |Bytes(c)|);
    t := Text(w1, c, w2);
    Utf8.AtSplit(frame, p, Bytes(c), w2);
    Utf8.AtSplit(frame, 0, w1, Bytes(c) + w2);
    WholeFrame(frame, TextBytes(t));
  }

  lemma WholeFrame(frame: gostring, b: gostring)
    requires |b| == |frame|
    ensures Utf8.At(frame, 0, b) <==> frame == b
  {
    assert frame[0..|frame|] == frame;
  }

  // The grammar only produces UTF-8.

  lemma PieceIsUtf8(p: Piece)
    requires WellFormedPiece(p)
    ensures Utf8.Valid(PieceBytes(p))
  {
    match p
    case Plain(r) => Utf8.EncodeRuneIsValid(r);
    case Short(c) => Utf8.AsciiIsValid(PieceBytes(p), 0);
    case Unit(h) => Utf8.AsciiIsValid(PieceBytes(p), 0);
    case Pair(hi, lo) =>
      HexIsAscii(hi);
      HexIsAscii(lo);
      Utf8.AsciiIsValid([BACKSLASH, LOWER_U] + hi, 0);
      Utf8.AsciiIsValid([BACKSLASH, LOWER_U] + lo, 0);
      Utf8.ValidConcat([BACKSLASH, LOWER_U] + hi, [BACKSLASH, LOWER_U] + lo);
  }

  lemma {:induction false} StringIsUtf8(ps: seq<Piece>)
    requires WellFormedPieces(ps)
    ensures Utf8.Valid(StringBytes(ps))
    decreases |ps|
  {
    if ps == [] {
      Utf8.AsciiIsValid([QUOTE], 0);
    } else {
      hide PieceBytes, Utf8.Valid;
      PieceIsUtf8(ps[0]);
      StringIsUtf8(ps[1..]);
      Utf8.ValidConcat(PieceBytes(ps[0]), StringBytes(ps[1..]));
    }
  }

  lemma WsIsUtf8(w: gostring)
    requires AllWs(w)
    ensures Utf8.Valid(w)
  {
    Utf8.AsciiIsValid(w, 0);
  }

  lemma AsciiPrefix(a: gostring, b: gostring)
    requires (forall i :: 0 <= i < |a| ==> a[i] < 0x80) && Utf8.Valid(b)
    ensures Utf8.Valid(a + b)
  {
    Utf8.AsciiIsValid(a, 0);
    Utf8.ValidConcat(a, b);
  }

  lemma {:induction false} ValueIsUtf8(c: Cst)
    requires WellFormed(c)
    ensures Utf8.Valid(Bytes(c))
    decreases c, 0
  {
    match c
    case EmptyObject(ws) => Utf8.AsciiIsValid(Bytes(c), 0);
    case EmptyArray(ws) => Utf8.AsciiIsValid(Bytes(c), 0);
    case FullObject(members) =>
      MembersAreUtf8(members);
      AsciiPrefix([OPEN_BRACE], MembersBytes(members));
    case FullArray(items) =>
      ItemsAreUtf8(items);
      AsciiPrefix([OPEN_BRACKET], ItemsBytes(items));
    case StringLiteral(pieces) =>
      StringIsUtf8(pieces);
      AsciiPrefix([QUOTE], StringBytes(pieces));
    case _ => Utf8.AsciiIsValid(Bytes(c), 0);
  }

  lemma {:induction false} MemberIsUtf8(m: CstMember)
    requires WellFormedMember(m)
    ensures Utf8.Valid(MemberBytes(m))
    decreases m, 1
  {
    hide Utf8.Valid, StringBytes, Bytes, WellFormed, WellFormedPieces;
    ValueIsUtf8(m.val);
    WsIsUtf8(m.ws4);
    Utf8.ValidConcat(Bytes(m.val), m.ws4);
    AsciiPrefix(m.ws3, Bytes(m.val) + m.ws4);
    AsciiPrefix([COLON], m.ws3 + (Bytes(m.val) + m.ws4));
    AsciiPrefix(m.ws2, [COLON] + (m.ws3 + (Bytes(m.val) + m.ws4)));
    StringIsUtf8(m.key);
    Utf8.ValidConcat(StringBytes(m.key), m.ws2 + ([COLON] + (m.ws3 + (Bytes(m.val) + m.ws4))));
    AsciiPrefix([QUOTE], StringBytes(m.key) + (m.ws2 + ([COLON] + (m.ws3 + (Bytes(m.val) + m.ws4)))));
    AsciiPrefix(m.ws1, [QUOTE] + (StringBytes(m.key) + (m.ws2 + ([COLON] + (m.ws3 + (Bytes(m.val) + m.ws4))))));
  }

  lemma {:induction false} MembersAreUtf8(ms: CstMembers)
    requires WellFormedMembers(ms)
    ensures Utf8.Valid(MembersBytes(ms))
    decreases ms, 2
  {
    hide MemberBytes, WellFormedMember;
    MemberIsUtf8(ms.m);
    if ms.LastMember? {
      Utf8.AsciiIsValid([CLOSE_BRACE], 0);
      Utf8.ValidConcat(MemberBytes(ms.m), [CLOSE_BRACE]);
    } else {
      MembersAreUtf8(ms.rest);
      AsciiPrefix([COMMA], MembersBytes(ms.rest));
      Utf8.ValidConcat(MemberBytes(ms.m), [COMMA] + MembersBytes(ms.rest));
    }
  }

  lemma {:induction false} ItemsAreUtf8(its: CstItems)
    requires WellFormedItems(its)
    ensures Utf8.Valid(ItemsBytes(its))
    decreases its, 2
  {
    hide Bytes, WellFormed, Utf8.Valid;
    var i := its.item;
    ValueIsUtf8(i.val);
    WsIsUtf8(i.ws2);
    Utf8.ValidConcat(Bytes(i.val), i.ws2);
    AsciiPrefix(i.ws1, Bytes(i.val) + i.ws2);
    if its.LastItem? {
      WsIsUtf8([]);
      AsciiPrefix([CLOSE_BRACKET], []);
      assert [CLOSE_BRACKET] + [] == [CLOSE_BRACKET];
      Utf8.ValidConcat(ItemBytes(i), [CLOSE_BRACKET]);
    } else {
      ItemsAreUtf8(its.rest);
      AsciiPrefix([COMMA], ItemsBytes(its.rest));
      Utf8.ValidConcat(ItemBytes(i), [COMMA] + ItemsBytes(its.rest));
    }
  }

  lemma TextIsUtf8(t: Text, frame: gostring, maxDepth: int)
    requires IsTextOf(t, frame, maxDepth)
    ensures Utf8.Valid(frame)
  {
    ValueIsUtf8(t.value);
    WsIsUtf8(t.ws2);
    Utf8.ValidConcat(Bytes(t.value), t.ws2);
    AsciiPrefix(t.ws1, Bytes(t.value) + t.ws2);
  }

  /** Decode accepts exactly the texts of the grammar within the depth limit (all of which are UTF-8), and
      answers with the tree a text denotes; so a text denotes one tree only. */
  lemma DecodeIsTheGrammar(frame: gostring, maxDepth: int, node: Node)
    ensures DecodeText(frame, maxDepth) == Some(node) <==>
            exists t :: IsTextOf(t, frame, maxDepth) && Denotes(t.value) == node
  {
    if DecodeText(frame, maxDepth) == Some(node) {
      var t := TextSound(frame, maxDepth);
    }
    forall t | IsTextOf(t, frame, maxDepth)
      ensures DecodeText(frame, maxDepth) == Some(Denotes(t.value))
    {
      TextAccepted(t, frame, maxDepth);
    }
  }

  // Every string of a decoded tree is UTF-8.

  ghost predicate StringsAreUtf8(n: Node) {
    match n
    case Object(members) => forall i :: 0 <= i < |members| ==> Utf8.Valid(members[i].key) && StringsAreUtf8(members[i].val)
    case Array(items) => forall i :: 0 <= i < |items| ==> StringsAreUtf8(items[i])
    case Str(str) => Utf8.Valid(str)
    case _ => true
  }

  lemma PieceIsScalar(p: Piece)
    requires WellFormedPiece(p)
    ensures Utf8.IsScalar(PieceRune(p))
  {
  }

  lemma {:induction false} StringValueIsUtf8(ps: seq<Piece>)
    requires WellFormedPieces(ps)
    ensures Utf8.Valid(StringValue(ps))
    decreases |ps|
  {
    hide PieceRune, Utf8.EncodeRune, WellFormedPiece;
    if ps != [] {
      StringValueIsUtf8(ps[1..]);
      PieceIsScalar(ps[0]);
      Utf8.EncodeRuneIsValid(PieceRune(ps[0]));
      Utf8.ValidConcat(Utf8.EncodeRune(PieceRune(ps[0])), StringValue(ps[1..]));
    }
  }

  lemma {:induction false} DenotedIsUtf8(c: Cst)
    requires WellFormed(c)
    ensures StringsAreUtf8(Denotes(c))
    decreases c
  {
    hide Utf8.ValidFrom, StringValue;
    match c
    case FullObject(members) => DenotedMembersAreUtf8(members);
    case FullArray(items) => DenotedItemsAreUtf8(items);
    case StringLiteral(pieces) => StringValueIsUtf8(pieces);
    case _ =>
  }

  lemma {:induction false} DenotedMembersAreUtf8(ms: CstMembers)
    requires WellFormedMembers(ms)
    ensures StringsAreUtf8(Object(DenotesMembers(ms)))
    decreases ms
  {
    hide Utf8.ValidFrom, StringValue;
    StringValueIsUtf8(ms.m.key);
    DenotedIsUtf8(ms.m.val);
    if ms.MoreMembers? { DenotedMembersAreUtf8(ms.rest); }
  }

  lemma {:induction false} DenotedItemsAreUtf8(its: CstItems)
    requires WellFormedItems(its)
    ensures StringsAreUtf8(Array(DenotesItems(its)))
    decreases its
  {
    hide Utf8.ValidFrom;
    DenotedIsUtf8(its.item.val);
    if its.MoreItems? { DenotedItemsAreUtf8(its.rest); }
  }

  lemma DecodedStringsAreUtf8(frame: gostring, maxDepth: int)
    requires DecodeText(frame, maxDepth).Some?
    ensures StringsAreUtf8(DecodeText(frame, maxDepth).value)
  {
    hide DecodeText, StringsAreUtf8, Denotes, WellFormed;
    var t := TextSound(frame, maxDepth);
    DenotedIsUtf8(t.value);
  }
}
