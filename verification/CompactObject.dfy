/** JSON objects written without whitespace: the text `{"key":value,...}` is the text of a syntax tree of the
    grammar, so the scanner reads the fields back in order. */
module CompactObject {
  import opened Base
  import opened JsonScanner
  import opened JsonGrammar
  import JsonWriter

  lemma Assoc(a: gostring, b: gostring, c: gostring)
    ensures a + b + c == a + (b + c)
  {
  }

  ghost predicate IsPlain(k: gostring) {
    forall i :: 0 <= i < |k| ==> 0x20 <= k[i] < 0x7F && k[i] != QUOTE && k[i] != BACKSLASH
  }

  ghost function PlainPieces(k: gostring): (ps: seq<Piece>)
    requires IsPlain(k)
  {
    if k == [] then [] else [Plain(k[0])] + PlainPieces(k[1..])
  }

  lemma {:induction false} PlainPiecesAreRight(k: gostring)
    requires IsPlain(k)
    ensures WellFormedPieces(PlainPieces(k)) && StringBytes(PlainPieces(k)) == k + [QUOTE] && StringValue(PlainPieces(k)) == k
    decreases |k|
  {
    if k != [] {
      PlainPiecesAreRight(k[1..]);
      JsonWriter.PlainAscii(k[0]);
      JsonWriter.StringCons(Plain(k[0]), PlainPieces(k[1..]));
      assert k == [k[0]] + k[1..];
    }
  }

  datatype Field = Field(key: gostring, val: Cst)

  ghost predicate IsField(f: Field) {
    IsPlain(f.key) && WellFormed(f.val)
  }

  ghost predicate AreFields(fs: seq<Field>) {
    fs != [] && forall i :: 0 <= i < |fs| ==> IsField(fs[i])
  }

  /** How deep the deepest field nests. */
  ghost function FieldsDepth(fs: seq<Field>): nat {
    if fs == [] then 0 else Max(Depth(fs[0].val), FieldsDepth(fs[1..]))
  }

  /** `"key":` */
  function KeyColon(key: gostring): gostring {
    [QUOTE] + key + [QUOTE, COLON]
  }

  ghost function MemberOf(f: Field): CstMember
    requires IsField(f)
  {
    CstMember([], PlainPieces(f.key), [], [], f.val, [])
  }

  ghost function MembersOf(fs: seq<Field>): CstMembers
    requires AreFields(fs)
  {
    if |fs| == 1 then LastMember(MemberOf(fs[0])) else MoreMembers(MemberOf(fs[0]), MembersOf(fs[1..]))
  }

  /** The fields after the opening brace, and the closing brace. */
  ghost function FieldsText(fs: seq<Field>): gostring {
    if fs == [] then []
    else if |fs| == 1 then KeyColon(fs[0].key) + (Bytes(fs[0].val) + [CLOSE_BRACE])
    else KeyColon(fs[0].key) + (Bytes(fs[0].val) + ([COMMA] + FieldsText(fs[1..])))
  }

  ghost function DenotedField(f: Field): Member
    requires IsField(f)
  {
    Member(f.key, Denotes(f.val))
  }

  ghost function Denoted(fs: seq<Field>): seq<Member>
    requires forall i :: 0 <= i < |fs| ==> IsField(fs[i])
  {
    if fs == [] then [] else [DenotedField(fs[0])] + Denoted(fs[1..])
  }

  lemma MemberIsRight(f: Field)
    requires IsField(f)
    ensures var m := MemberOf(f);
            && WellFormedMember(m) && MemberBytes(m) == KeyColon(f.key) + Bytes(f.val)
            && DenotesMember(m) == DenotedField(f)
  {
    hide Bytes, WellFormed, Denotes, Depth, PlainPieces, IsPlain;
    PlainPiecesAreRight(f.key);
    assert AllWs([]);
    var v := Bytes(f.val);
    assert [] + ([COLON] + ([] + (v + []))) == [COLON] + v;
    assert f.key + [QUOTE] + ([COLON] + v) == f.key + [QUOTE, COLON] + v;
    Assoc([QUOTE], f.key + [QUOTE, COLON], v);
    Assoc([QUOTE], f.key, [QUOTE, COLON]);
  }

  lemma {:induction false} MembersAreRight(fs: seq<Field>)
    requires AreFields(fs)
    ensures var ms := MembersOf(fs);
            WellFormedMembers(ms) && MembersBytes(ms) == FieldsText(fs) && DenotesMembers(ms) == Denoted(fs) && MembersDepth(ms) == FieldsDepth(fs)
    decreases |fs|
  {
    hide IsField, MemberOf, DenotedField, WellFormedMember, MemberBytes, DenotesMember, Bytes, Denotes, KeyColon;
    MemberIsRight(fs[0]);
    assert MemberOf(fs[0]).val == fs[0].val by { MemberHolds(fs[0]); }
    hide Depth;
    assert FieldsDepth(fs) == Max(Depth(fs[0].val), FieldsDepth(fs[1..]));
    var k, v := KeyColon(fs[0].key), Bytes(fs[0].val);
    if |fs| == 1 {
      assert FieldsDepth(fs[1..]) == 0;
      Assoc(k, v, [CLOSE_BRACE]);
    } else {
      MembersAreRight(fs[1..]);
      Assoc(k, v, [COMMA] + FieldsText(fs[1..]));
    }
  }

  lemma MemberHolds(f: Field)
    requires IsField(f)
    ensures MemberOf(f).val == f.val
  {
  }

  /** The scanner reads a compact object back as its fields in order. */
  lemma CompactDecodes(fs: seq<Field>, maxDepth: int)
    requires AreFields(fs) && 1 + FieldsDepth(fs) <= maxDepth
    ensures DecodeText([OPEN_BRACE] + FieldsText(fs), maxDepth) == Some(Object(Denoted(fs)))
  {
    hide DecodeText, FieldsText, Denoted, MembersBytes, WellFormedMembers, DenotesMembers, MembersDepth, MembersOf, AreFields, FieldsDepth;
    MembersAreRight(fs);
    var c := FullObject(MembersOf(fs));
    var t := Text([], c, []);
    assert TextBytes(t) == [OPEN_BRACE] + FieldsText(fs);
    TextAccepted(t, [OPEN_BRACE] + FieldsText(fs), maxDepth);
  }
}
