/** The frames the server sends (internal/protocol/serialize.go): each is one JSON object with its fields in a fixed
    order, and the scanner reads the fields back, strings as the escaper leaves them. `stamp` formats a time. */
module ServerFrames {
  import opened Base
  import opened Messages
  import opened JsonScanner
  import opened JsonGrammar
  import opened JsonWriter
  import opened CompactObject
  import Strconv
  import Utf8

  type Stamp = int -> gostring

  /** A formatted time has only printable characters that need no escape. */
  ghost predicate StampsArePlain(stamp: Stamp) {
    forall t: int :: IsPlain(stamp(t))
  }

  // Objects, written entry by entry. The level bounds how deep they nest.

  datatype Value =
    | Escaped(s: gostring)         // written by writeJSONString
    | Bare(s: gostring)            // written between quotes as it is
    | Count(n: uint64)
    | Flag(b: bool)
    | Inner(entries: seq<Entry>)   // an object

  datatype Entry = Entry(key: gostring, val: Value)

  ghost predicate IsValue(v: Value, level: nat)
    decreases level, 0
  {
    match v
    case Bare(s) => IsPlain(s)
    case Inner(es) => level > 0 && AreEntries(es, level - 1)
    case _ => true
  }

  ghost predicate IsEntry(e: Entry, level: nat)
    decreases level, 1
  {
    IsPlain(e.key) && IsValue(e.val, level)
  }

  ghost predicate AreEntries(es: seq<Entry>, level: nat)
    decreases level, 2
  {
    es != [] && forall i :: 0 <= i < |es| ==> IsEntry(es[i], level)
  }

  function ValueText(v: Value): gostring {
    match v
    case Escaped(s) => Quoted(AsWritten, s)
    case Bare(s) => [QUOTE] + s + [QUOTE]
    case Count(n) => Strconv.FormatUint(n)
    case Flag(b) => if b then TRUE else FALSE
    case Inner(es) => EntriesText(es) + [CLOSE_BRACE]
  }

  /** What stands before a value: the brace or a comma, and the key. */
  function Lead(first: bool, key: gostring): gostring {
    [if first then OPEN_BRACE else COMMA] + KeyColon(key)
  }

  /** The object's text without the closing brace. */
  function EntriesText(es: seq<Entry>): gostring {
    if es == [] then []
    else
      var n := |es| - 1;
      EntriesText(es[..n]) + (Lead(n == 0, es[n].key) + ValueText(es[n].val))
  }

  function ValueNode(v: Value): Node {
    match v
    case Escaped(s) => Str(Reread(AsWritten, s))
    case Bare(s) => Str(s)
    case Count(n) => Number(Strconv.FormatUint(n))
    case Flag(b) => Bool(b)
    case Inner(es) => Object(NodesOf(es))
  }

  function NodesOf(es: seq<Entry>): seq<Member> {
    if es == [] then [] else [Member(es[0].key, ValueNode(es[0].val))] + NodesOf(es[1..])
  }

  ghost function ValueCst(v: Value, level: nat): (c: Cst)
    requires IsValue(v, level)
    ensures WellFormed(c) && Depth(c) <= level
    decreases level, 0, 1
  {
    match v
    case Escaped(s) => StringLiteral(LiteralOf(AsWritten, s))
    case Bare(s) => PlainPiecesAreRight(s); StringLiteral(PlainPieces(s))
    case Count(n) => Strconv.FormatIsLiteral(n); NumberLiteral(Strconv.FormatUint(n))
    case Flag(b) => if b then TrueLiteral else FalseLiteral
    case Inner(es) =>
      assert AreEntries(es, level - 1);
      var fs := FieldsOf(es, level - 1);
      MembersAreRight(fs);
      FullObject(MembersOf(fs))
  }

  ghost function FieldOf(e: Entry, level: nat): (f: Field)
    requires IsEntry(e, level)
    ensures IsField(f) && f.key == e.key && Depth(f.val) <= level
    decreases level, 0, 2
  {
    Field(e.key, ValueCst(e.val, level))
  }

  ghost function FieldsOf(es: seq<Entry>, level: nat): (fs: seq<Field>)
    requires forall i :: 0 <= i < |es| ==> IsEntry(es[i], level)
    ensures |fs| == |es| && FieldsDepth(fs) <= level
    ensures es != [] ==> AreFields(fs)
    decreases level, |es| + 1, 0
  {
    hide IsEntry, IsField, Depth;
    if es == [] then [] else
      var rest := FieldsOf(es[1..], level);
      var fs := [FieldOf(es[0], level)] + rest;
      assert fs[1..] == rest && forall i :: 1 <= i < |fs| ==> fs[i] == rest[i - 1];
      fs
  }

  /** An entry's field has the entry's text and denotes its node. */
  lemma {:induction false} FieldIsRight(e: Entry, level: nat)
    requires IsEntry(e, level)
    ensures Bytes(FieldOf(e, level).val) == ValueText(e.val)
    ensures DenotedField(FieldOf(e, level)) == Member(e.key, ValueNode(e.val))
    decreases level, 0, 1
  {
    hide Quoted, Reread, Strconv.FormatUint, EntriesText, FieldsText, NodesOf, FieldsOf, PlainPieces;
    match e.val
    case Bare(s) => PlainPiecesAreRight(s);
    case Count(n) => Strconv.FormatIsLiteral(n);
    case Inner(es) => InnerIsRight(es, level - 1);
    case _ =>
  }

  lemma {:induction false} InnerIsRight(es: seq<Entry>, level: nat)
    requires AreEntries(es, level)
    ensures WellFormedMembers(MembersOf(FieldsOf(es, level)))
    ensures [OPEN_BRACE] + MembersBytes(MembersOf(FieldsOf(es, level))) == EntriesText(es) + [CLOSE_BRACE]
    ensures DenotesMembers(MembersOf(FieldsOf(es, level))) == NodesOf(es)
    decreases level, |es| + 1, 1
  {
    hide EntriesText, FieldsText, NodesOf, FieldsOf, Rest, IsEntry, MembersBytes, WellFormedMembers, DenotesMembers, MembersOf, Denoted;
    MembersAreRight(FieldsOf(es, level));
    FieldsAreRight(es, level);
    TextIsRest(es);
    assert es[0..] == es;
    RestIsFields(es, 0, level);
  }

  lemma TextIsRest(es: seq<Entry>)
    ensures EntriesText(es) + [CLOSE_BRACE] == Rest(es, 0)
  {
    hide EntriesText, Rest;
    TextAndRest(es, 0);
    assert es[..0] == [];
    NothingYet();
    assert [] + Rest(es, 0) == Rest(es, 0);
  }

  /** The text from entry `k` on. */
  function Rest(es: seq<Entry>, k: nat): gostring
    requires k <= |es|
    decreases |es| - k
  {
    if k == |es| then [CLOSE_BRACE] else Lead(k == 0, es[k].key) + (ValueText(es[k].val) + Rest(es, k + 1))
  }

  lemma {:induction false} TextAndRest(es: seq<Entry>, k: nat)
    requires k <= |es|
    ensures EntriesText(es[..k]) + Rest(es, k) == EntriesText(es) + [CLOSE_BRACE]
    decreases |es| - k
  {
    hide ValueText, Lead;
    if k == |es| {
      assert es[..k] == es;
    } else {
      TextAndRest(es, k + 1);
      assert es[..k + 1][..k] == es[..k];
      var t, lead, value := EntriesText(es[..k]), Lead(k == 0, es[k].key), ValueText(es[k].val);
      assert EntriesText(es[..k + 1]) == t + (lead + value);
      Assoc(t, lead + value, Rest(es, k + 1));
      Assoc(lead, value, Rest(es, k + 1));
    }
  }

  lemma {:induction false} FieldsAreRight(es: seq<Entry>, level: nat)
    requires forall i :: 0 <= i < |es| ==> IsEntry(es[i], level)
    ensures forall i :: 0 <= i < |es| ==> IsField(FieldsOf(es, level)[i])
    ensures Denoted(FieldsOf(es, level)) == NodesOf(es)
    decreases level, |es|, 2
  {
    hide IsEntry, IsField, FieldOf, DenotedField, ValueNode, Depth;
    if es != [] {
      FieldIsRight(es[0], level);
      FieldsAreRight(es[1..], level);
      var fs := FieldsOf(es, level);
      assert fs == [FieldOf(es[0], level)] + FieldsOf(es[1..], level) && fs[1..] == FieldsOf(es[1..], level);
    }
  }

  lemma {:induction false} RestIsFields(es: seq<Entry>, k: nat, level: nat)
    requires AreEntries(es, level) && k < |es|
    ensures forall i :: 0 <= i < |es[k..]| ==> IsEntry(es[k..][i], level)
    ensures Rest(es, k) == [if k == 0 then OPEN_BRACE else COMMA] + FieldsText(FieldsOf(es[k..], level))
    decreases level, |es| - k, 2
  {
    hide IsEntry, ValueText, KeyColon, Bytes, IsField, Depth, DenotedField, FieldOf, FieldsOf, Rest, FieldsText;
    TailEntries(es, k, level);
    FieldIsRight(es[k], level);
    FieldKey(es[k], level);
    var open, key, value := [if k == 0 then OPEN_BRACE else COMMA], KeyColon(es[k].key), ValueText(es[k].val);
    var f, rest := FieldOf(es[k], level), FieldsOf(es[k + 1..], level);
    FieldsTextStep(f, rest);
    RestStep(es, k);
    if k == |es| - 1 {
      Assoc(open, key, value + [CLOSE_BRACE]);
    } else {
      RestIsFields(es, k + 1, level);
      Assoc(open, key, value + ([COMMA] + FieldsText(rest)));
    }
  }

  lemma TailEntries(es: seq<Entry>, k: nat, level: nat)
    requires AreEntries(es, level) && k < |es|
    ensures forall i :: 0 <= i < |es[k..]| ==> IsEntry(es[k..][i], level)
    ensures var tail := es[k + 1..]; forall i :: 0 <= i < |tail| ==> IsEntry(tail[i], level)
    ensures IsEntry(es[k], level) && FieldsOf(es[k..], level) == [FieldOf(es[k], level)] + FieldsOf(es[k + 1..], level)
    ensures (FieldsOf(es[k + 1..], level) == []) == (k == |es| - 1)
  {
    hide IsEntry, FieldOf;
    assert es[k..][1..] == es[k + 1..];
  }

  lemma FieldsTextStep(f: Field, rest: seq<Field>)
    ensures FieldsText([f] + rest) == KeyColon(f.key) + (Bytes(f.val) + if rest == [] then [CLOSE_BRACE] else [COMMA] + FieldsText(rest))
  {
    hide KeyColon, Bytes;
    assert ([f] + rest)[1..] == rest;
  }

  lemma RestStep(es: seq<Entry>, k: nat)
    requires k < |es|
    ensures Rest(es, k) == Lead(k == 0, es[k].key) + (ValueText(es[k].val) + if k == |es| - 1 then [CLOSE_BRACE] else Rest(es, k + 1))
  {
    hide ValueText, Lead;
  }

  lemma FieldKey(e: Entry, level: nat)
    requires IsEntry(e, level)
    ensures FieldOf(e, level).key == e.key
  {
  }

  /** An object written entry by entry is read back entry by entry. */
  lemma EntriesReadBack(es: seq<Entry>, level: nat, maxDepth: int)
    requires AreEntries(es, level) && level < maxDepth
    ensures DecodeText(EntriesText(es) + [CLOSE_BRACE], maxDepth) == Some(Object(NodesOf(es)))
  {
    hide DecodeText, EntriesText, Rest, FieldsText, FieldsOf, Denoted, NodesOf, AreFields, IsEntry;
    assert es[0..] == es;
    TextIsRest(es);
    FieldsAreRight(es, level);
    RestIsFields(es, 0, level);
    CompactDecodes(FieldsOf(es, level), maxDepth);
  }

  lemma NothingYet()
    ensures EntriesText([]) == []
  {
  }

  /** Writes entry `k`: the key, then the value. */
  method WriteEntry(b: Builder, es: seq<Entry>, k: nat)
    requires k < |es| && !es[k].val.Inner? && b.text == EntriesText(es[..k])
    modifies b
    ensures b.text == EntriesText(es[..k + 1])
  {
    hide Quoted, Strconv.FormatUint, Lead;
    var e := es[k];
    var lead := Lead(k == 0, e.key);
    b.Write(lead);
    match e.val {
      case Escaped(s) => b.WriteJsonString(s);
      case Bare(s) =>
        b.Write([QUOTE] + s + [QUOTE]);
      case Count(n) =>
        var digits := Strconv.FormatUint(n);
        b.Write(digits);
      case Flag(flag) => b.Write(if flag then TRUE else FALSE);
      case Inner(_) => assert false;
    }
    assert es[..k + 1][..k] == es[..k];
    Assoc(EntriesText(es[..k]), lead, ValueText(e.val));
  }

  /** Writes entry `k`, an object marshalled already. */
  method WriteInner(b: Builder, es: seq<Entry>, k: nat, text: gostring)
    requires k < |es| && text == ValueText(es[k].val) && b.text == EntriesText(es[..k])
    modifies b
    ensures b.text == EntriesText(es[..k + 1])
  {
    hide ValueText, Lead;
    var lead := Lead(k == 0, es[k].key);
    b.Write(lead);
    b.Write(text);
    assert es[..k + 1][..k] == es[..k];
    Assoc(EntriesText(es[..k]), lead, text);
  }

  // The frames.

  const TYPE: gostring := Ascii("type")
  const VERSION: gostring := Ascii("version")
  const ID: gostring := Ascii("id")
  const PAYLOAD: gostring := Ascii("payload")
  const ENCRYPTED: gostring := Ascii("encrypted")
  const HASH: gostring := Ascii("hash")
  const FROM_ID: gostring := Ascii("fromClientId")
  const FROM_NAME: gostring := Ascii("fromClientName")
  const UPDATED: gostring := Ascii("updatedAtUtc")
  const PROTOCOL_VERSION: gostring := Ascii("protocolVersion")
  const LATEST: gostring := Ascii("latest")
  const WELCOME: gostring := Ascii("welcome")
  const CLIP: gostring := Ascii("clip")
  const CLIP_ACK: gostring := Ascii("clip_ack")

  lemma KeysArePlain()
    ensures IsPlain(TYPE) && IsPlain(VERSION) && IsPlain(ID) && IsPlain(PAYLOAD) && IsPlain(ENCRYPTED) && IsPlain(HASH)
  {
  }

  lemma MoreArePlain()
    ensures IsPlain(FROM_ID) && IsPlain(FROM_NAME) && IsPlain(UPDATED) && IsPlain(CLIP) && IsPlain(CLIP_ACK)
  {
  }

  lemma WelcomeIsPlain()
    ensures IsPlain(PROTOCOL_VERSION) && IsPlain(LATEST) && IsPlain(WELCOME)
  {
  }

  /** ProtocolVersion in protocol.go */
  const PROTOCOL := 1

  function LatestEntries(latest: LatestText, stamp: Stamp): seq<Entry> {
    [Entry(PAYLOAD, Escaped(latest.payload)), Entry(VERSION, Count(latest.version)), Entry(HASH, Escaped(latest.hash)),
     Entry(ENCRYPTED, Flag(latest.encrypted)), Entry(FROM_ID, Escaped(latest.fromClientId)),
     Entry(FROM_NAME, Escaped(latest.fromClientName)), Entry(UPDATED, Bare(stamp(latest.updatedAtUtc)))]
  }

  function WelcomeEntries(latest: Option<LatestText>, stamp: Stamp): seq<Entry> {
    [Entry(TYPE, Bare(WELCOME)), Entry(PROTOCOL_VERSION, Count(PROTOCOL))]
    + if latest.None? then [] else [Entry(LATEST, Inner(LatestEntries(latest.value, stamp)))]
  }

  function ClipEntries(id: gostring, latest: LatestText, stamp: Stamp): seq<Entry> {
    [Entry(TYPE, Bare(CLIP)), Entry(VERSION, Count(latest.version)), Entry(ID, Escaped(id)), Entry(PAYLOAD, Escaped(latest.payload)),
     Entry(ENCRYPTED, Flag(latest.encrypted)), Entry(HASH, Escaped(latest.hash)), Entry(FROM_ID, Escaped(latest.fromClientId)),
     Entry(FROM_NAME, Escaped(latest.fromClientName)), Entry(UPDATED, Bare(stamp(latest.updatedAtUtc)))]
  }

  function AckEntries(id: gostring, latest: LatestText, stamp: Stamp): seq<Entry> {
    [Entry(TYPE, Bare(CLIP_ACK)), Entry(ID, Escaped(id)), Entry(VERSION, Count(latest.version)),
     Entry(UPDATED, Bare(stamp(latest.updatedAtUtc)))]
  }

  method MarshalClip(id: gostring, latest: LatestText, stamp: Stamp) returns (text: gostring)
    ensures text == EntriesText(ClipEntries(id, latest, stamp)) + [CLOSE_BRACE]
  {
    hide EntriesText;
    NothingYet();
    var b := new Builder();
    var es := ClipEntries(id, latest, stamp);
    WriteEntry(b, es, 0);
    WriteEntry(b, es, 1);
    WriteEntry(b, es, 2);
    WriteEntry(b, es, 3);
    WriteEntry(b, es, 4);
    WriteEntry(b, es, 5);
    WriteEntry(b, es, 6);
    WriteEntry(b, es, 7);
    WriteEntry(b, es, 8);
    b.Write([CLOSE_BRACE]);
    text := b.text;
    assert es[..9] == es;
  }

  method MarshalClipAck(id: gostring, latest: LatestText, stamp: Stamp) returns (text: gostring)
    ensures text == EntriesText(AckEntries(id, latest, stamp)) + [CLOSE_BRACE]
  {
    hide EntriesText;
    NothingYet();
    var b := new Builder();
    var es := AckEntries(id, latest, stamp);
    WriteEntry(b, es, 0);
    WriteEntry(b, es, 1);
    WriteEntry(b, es, 2);
    WriteEntry(b, es, 3);
    b.Write([CLOSE_BRACE]);
    text := b.text;
    assert es[..4] == es;
  }

  method MarshalLatest(latest: LatestText, stamp: Stamp) returns (text: gostring)
    ensures text == EntriesText(LatestEntries(latest, stamp)) + [CLOSE_BRACE]
  {
    hide EntriesText;
    NothingYet();
    var b := new Builder();
    var es := LatestEntries(latest, stamp);
    WriteEntry(b, es, 0);
    WriteEntry(b, es, 1);
    WriteEntry(b, es, 2);
    WriteEntry(b, es, 3);
    WriteEntry(b, es, 4);
    WriteEntry(b, es, 5);
    WriteEntry(b, es, 6);
    b.Write([CLOSE_BRACE]);
    text := b.text;
    assert es[..7] == es;
  }

  method MarshalWelcome(latest: Option<LatestText>, stamp: Stamp) returns (text: gostring)
    ensures text == EntriesText(WelcomeEntries(latest, stamp)) + [CLOSE_BRACE]
  {
    hide EntriesText, LatestEntries;
    NothingYet();
    var b := new Builder();
    var es := WelcomeEntries(latest, stamp);
    WriteEntry(b, es, 0);
    WriteEntry(b, es, 1);
    if latest.Some? {
      var inner := MarshalLatest(latest.value, stamp);
      WriteInner(b, es, 2, inner);
    }
    assert es[..|es|] == es;
    b.Write([CLOSE_BRACE]);
    text := b.text;
  }

  lemma {:induction false} FindEntry(es: seq<Entry>, k: nat)
    requires k < |es| && forall j :: 0 <= j < k ==> es[j].key != es[k].key
    ensures Find(NodesOf(es), es[k].key) == Some(ValueNode(es[k].val))
    decreases |es|
  {
    hide ValueNode;
    if k > 0 {
      assert es[1..][k - 1] == es[k];
      FindEntry(es[1..], k - 1);
    }
    assert NodesOf(es)[1..] == NodesOf(es[1..]);
  }

  lemma KeysDiffer()
    ensures TYPE != VERSION && TYPE != ID && TYPE != PAYLOAD && VERSION != ID && VERSION != PAYLOAD && ID != PAYLOAD
  {
    assert TYPE[0] == 0x74 && VERSION[0] == 0x76 && ID[0] == 0x69 && PAYLOAD[0] == 0x70;
  }

  /** The id, version and payload that a scanned frame carries. */
  predicate Carries(node: Node, id: gostring, version: uint64) {
    && Get(node, ID) == Some(Str(id))
    && Get(node, VERSION).Some? && Get(node, VERSION).value.Number?
    && Strconv.ParseUint(Get(node, VERSION).value.raw) == Some(version)
  }

  /** A broadcast is one JSON object; it carries the version exactly, and the id and the payload as the escaper
      leaves them. */
  lemma ClipReadsBack(id: gostring, latest: LatestText, stamp: Stamp)
    requires StampsArePlain(stamp)
    ensures var node := DecodeText(EntriesText(ClipEntries(id, latest, stamp)) + [CLOSE_BRACE], 3);
            && node.Some? && node.value == Object(NodesOf(ClipEntries(id, latest, stamp)))
            && Carries(node.value, Reread(AsWritten, id), latest.version)
            && Get(node.value, PAYLOAD) == Some(Str(Reread(AsWritten, latest.payload)))
  {
    hide DecodeText, EntriesText, NodesOf, Find, Reread, Strconv.FormatUint, Strconv.ParseUint, IsPlain, Ascii;
    var es := ClipEntries(id, latest, stamp);
    KeysArePlain();
    MoreArePlain();
    KeysDiffer();
    EntriesReadBack(es, 0, 3);
    FindEntry(es, 1);
    FindEntry(es, 2);
    FindEntry(es, 3);
    Strconv.ParseOfFormatUint(latest.version);
  }

  /** A welcome is one JSON object; it has the hub's current text inside exactly if there is one, with its version
      exact and its payload as the escaper leaves it. */
  lemma WelcomeReadsBack(latest: Option<LatestText>, stamp: Stamp)
    requires StampsArePlain(stamp)
    ensures var node := DecodeText(EntriesText(WelcomeEntries(latest, stamp)) + [CLOSE_BRACE], 3);
            && node.Some? && node.value == Object(NodesOf(WelcomeEntries(latest, stamp)))
            && (latest.None? <==> Get(node.value, LATEST).None?)
            && (latest.Some? ==>
                && Get(node.value, LATEST) == Some(Object(NodesOf(LatestEntries(latest.value, stamp))))
                && var inner := Get(node.value, LATEST).value;
                   && Get(inner, PAYLOAD) == Some(Str(Reread(AsWritten, latest.value.payload)))
                   && Get(inner, VERSION) == Some(Number(Strconv.FormatUint(latest.value.version)))
                   && Strconv.ParseUint(Strconv.FormatUint(latest.value.version)) == Some(latest.value.version))
  {
    hide DecodeText, EntriesText, NodesOf, Find, Reread, Strconv.FormatUint, Strconv.ParseUint, IsPlain, Ascii;
    var es := WelcomeEntries(latest, stamp);
    WelcomeIsEntries(latest, stamp);
    EntriesReadBack(es, 1, 3);
    WelcomeKeysDiffer();
    if latest.Some? {
      FindEntry(es, 2);
      KeysDiffer();
      FindEntry(LatestEntries(latest.value, stamp), 0);
      FindEntry(LatestEntries(latest.value, stamp), 1);
      Strconv.ParseOfFormatUint(latest.value.version);
    } else {
      FindNothing(es, LATEST);
    }
  }

  lemma WelcomeIsEntries(latest: Option<LatestText>, stamp: Stamp)
    requires StampsArePlain(stamp)
    ensures AreEntries(WelcomeEntries(latest, stamp), 1)
  {
    hide IsPlain, Ascii;
    KeysArePlain();
    MoreArePlain();
    WelcomeIsPlain();
    if latest.Some? { assert AreEntries(LatestEntries(latest.value, stamp), 0); }
  }

  lemma WelcomeKeysDiffer()
    ensures LATEST != TYPE && LATEST != PROTOCOL_VERSION
  {
    assert LATEST[0] == 0x6C && TYPE[0] == 0x74 && PROTOCOL_VERSION[0] == 0x70;
  }

  lemma {:induction false} FindNothing(es: seq<Entry>, key: gostring)
    requires forall i :: 0 <= i < |es| ==> es[i].key != key
    ensures Find(NodesOf(es), key) == None
    decreases |es|
  {
    hide ValueNode;
    if es != [] {
      FindNothing(es[1..], key);
      assert NodesOf(es)[1..] == NodesOf(es[1..]);
    }
  }

  /** And so is an acknowledgement. */
  lemma AckReadsBack(id: gostring, latest: LatestText, stamp: Stamp)
    requires StampsArePlain(stamp)
    ensures var node := DecodeText(EntriesText(AckEntries(id, latest, stamp)) + [CLOSE_BRACE], 3);
            && node.Some? && node.value == Object(NodesOf(AckEntries(id, latest, stamp)))
            && Carries(node.value, Reread(AsWritten, id), latest.version)
  {
    hide DecodeText, EntriesText, NodesOf, Find, Reread, Strconv.FormatUint, Strconv.ParseUint, IsPlain, Ascii;
    var es := AckEntries(id, latest, stamp);
    KeysArePlain();
    MoreArePlain();
    KeysDiffer();
    EntriesReadBack(es, 0, 3);
    FindEntry(es, 1);
    FindEntry(es, 2);
    Strconv.ParseOfFormatUint(latest.version);
  }

  /** A client that compares ids recognises its own acknowledgement exactly when its id survives the escaper. */
  lemma AckNamesItsClip(id: gostring, latest: LatestText, stamp: Stamp)
    requires StampsArePlain(stamp)
    ensures DecodeText(EntriesText(AckEntries(id, latest, stamp)) + [CLOSE_BRACE], 3).Some?
    ensures Get(DecodeText(EntriesText(AckEntries(id, latest, stamp)) + [CLOSE_BRACE], 3).value, ID) == Some(Str(id)) <==>
            Utf8.Valid(id) && forall i :: 0 <= i < |Utf8.Runes(id)| ==> !Mangled(AsWritten, Utf8.Runes(id)[i])
  {
    hide DecodeText, EntriesText, Get, Reread, Utf8.ValidFrom;
    AckReadsBack(id, latest, stamp);
    RoundTripIff(AsWritten, id);
  }
}
