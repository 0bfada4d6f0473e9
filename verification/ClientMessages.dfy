/** Frames from clients (internal/protocol/protocol.go): parsing a decoded tree into a message. `parseTime`
    stands for parsing a UTC time that ends in Z. */
module ClientMessages {
  import opened Base
  import opened Messages
  import opened JsonScanner
  import opened MemberSets
  import Strconv

  const MAX_NAME_BYTES := 128
  const MAX_ID_BYTES := 128
  const MAX_HASH_BYTES := 4096

  datatype ErrorCode = InvalidMessage | TextTooLarge | EmptyText

  /** One constructor for each message text. */
  datatype Reason =
    | InvalidJson | RootIsNoObject | BadType | UnknownOrDuplicate(name: gostring) | UnknownMessageType
    | BadClientId | BadLastVersion | SnapshotIsNoObject | HelloValidationFailed
    | SnapshotPayloadMissing | SnapshotEncryptedMissing | SnapshotHashMissing | SnapshotTimeMissing
    | BadId | PayloadEmpty | TooLarge | EncryptedMissing | HashMissing | ClipValidationFailed
    | PongTimeMissing

  datatype ProtocolError = ProtocolError(code: ErrorCode, reason: Reason, reference: Option<gostring>)

  datatype Message = Hello(hello: ClientHello) | Clip(clip: ClientClip) | Pong(clientTimeUtc: int)

  type Parsed = Result<Message, ProtocolError>

  type TimeParser = gostring -> Option<int>

  const TYPE: gostring := Ascii("type")
  const HELLO: gostring := Ascii("hello")
  const CLIP: gostring := Ascii("clip")
  const PONG: gostring := Ascii("pong")
  const CLIENT_ID: gostring := Ascii("clientId")
  const CLIENT_NAME: gostring := Ascii("clientName")
  const LAST_VERSION: gostring := Ascii("lastServerVersion")
  const SNAPSHOT: gostring := Ascii("snapshot")
  const ID: gostring := Ascii("id")
  const PAYLOAD: gostring := Ascii("payload")
  const ENCRYPTED: gostring := Ascii("encrypted")
  const HASH: gostring := Ascii("hash")
  const MODIFIED: gostring := Ascii("localModifiedAtUtc")
  const CLIENT_TIME: gostring := Ascii("clientTimeUtc")

  function Invalid(reason: Reason, reference: Option<gostring>): ProtocolError {
    ProtocolError(InvalidMessage, reason, reference)
  }

  // Validation.

  predicate ValidateClip(c: ClientClip, maxTextBytes: int) {
    && 0 < |c.id| <= MAX_ID_BYTES
    && 0 < |c.payload| <= maxTextBytes
    && 0 < |c.hash| <= MAX_HASH_BYTES
  }

  predicate ValidateHello(h: ClientHello, maxTextBytes: int) {
    && 0 < |h.clientId| <= MAX_NAME_BYTES
    && |h.clientName| <= MAX_NAME_BYTES
    && (h.snapshot.Some? ==> 0 < |h.snapshot.value.payload| <= maxTextBytes && |h.snapshot.value.hash| <= MAX_HASH_BYTES)
  }

  // Known and unrepeated names.

  predicate IsBad(members: seq<Member>, i: nat, known: seq<gostring>)
    requires i < |members|
  {
    members[i].key !in known || exists j :: 0 <= j < i && members[j].key == members[i].key
  }

  /** The name of the first bad member from `i` on. */
  function FirstBad(members: seq<Member>, i: nat, known: seq<gostring>): (bad: Option<gostring>)
    requires i <= |members|
    ensures bad.None? <==> forall j :: i <= j < |members| ==> !IsBad(members, j, known)
    decreases |members| - i
  {
    if i == |members| then None
    else if IsBad(members, i, known) then Some(members[i].key)
    else FirstBad(members, i + 1, known)
  }

  lemma FirstBadIsUniqueKnown(members: seq<Member>, known: seq<gostring>)
    ensures FirstBad(members, 0, known).None? <==> UniqueKnown(members, known)
  {
    if FirstBad(members, 0, known).None? {
      forall i, j | 0 <= i < j < |members| ensures members[i].key != members[j].key {
        assert !IsBad(members, j, known);
      }
      forall i | 0 <= i < |members| ensures members[i].key in known {
        assert !IsBad(members, i, known);
      }
    }
  }

  method HasUniqueKnownProperties(root: Node, known: seq<gostring>) returns (bad: Option<gostring>)
    requires root.Object?
    ensures bad == FirstBad(root.members, 0, known)
  {
    var members := root.members;
    var knownSet := set k | k in known;
    var seen: set<gostring> := {};
    for i := 0 to |members|
      invariant forall key :: key in seen <==> exists j :: 0 <= j < i && members[j].key == key
      invariant FirstBad(members, 0, known) == FirstBad(members, i, known)
    {
      if members[i].key !in knownSet || members[i].key in seen {
        return Some(members[i].key);
      }
      seen := seen + {members[i].key};
    }
    bad := None;
  }

  // Parsing.

  function StringAt(root: Node, key: gostring): Option<gostring> {
    var v := Get(root, key);
    if v.Some? && v.value.Str? then Some(v.value.str) else None
  }

  function BoolAt(root: Node, key: gostring): Option<bool> {
    var v := Get(root, key);
    if v.Some? && v.value.Bool? then Some(v.value.boolean) else None
  }

  /** A required string of at most `limit` bytes. */
  function ShortString(root: Node, key: gostring, limit: int): Option<gostring> {
    var s := StringAt(root, key);
    if s.None? || |s.value| > limit || s.value == [] then None else s
  }

  /** tryGetUint64 */
  function Uint64At(root: Node, key: gostring): Option<uint64> {
    var v := Get(root, key);
    if v.None? || !v.value.Number? then None else Strconv.ParseUint(v.value.raw)
  }

  function TimeAt(root: Node, key: gostring, parseTime: TimeParser): Option<int> {
    var s := StringAt(root, key);
    if s.None? || s.value == [] || s.value[|s.value| - 1] != 0x5A then None else parseTime(s.value)
  }

  /** tryGetSnapshot */
  function SnapshotOf(element: Node, maxTextBytes: int, parseTime: TimeParser): Result<ClipSnapshot, ProtocolError> {
    var payload := StringAt(element, PAYLOAD);
    if payload.None? || payload.value == [] then Err(Invalid(SnapshotPayloadMissing, None))
    else if |payload.value| > maxTextBytes then Err(ProtocolError(TextTooLarge, TooLarge, None))
    else if BoolAt(element, ENCRYPTED).None? then Err(Invalid(SnapshotEncryptedMissing, None))
    else if ShortString(element, HASH, MAX_HASH_BYTES).None? then Err(Invalid(SnapshotHashMissing, None))
    else if TimeAt(element, MODIFIED, parseTime).None? then Err(Invalid(SnapshotTimeMissing, None))
    else Ok(ClipSnapshot(payload.value, BoolAt(element, ENCRYPTED).value, ShortString(element, HASH, MAX_HASH_BYTES).value,
                         TimeAt(element, MODIFIED, parseTime).value))
  }

  function CheckedHello(h: ClientHello, maxTextBytes: int): Parsed {
    if ValidateHello(h, maxTextBytes) then Ok(Hello(h)) else Err(Invalid(HelloValidationFailed, None))
  }

  const SNAPSHOT_KEYS := [PAYLOAD, ENCRYPTED, HASH, MODIFIED]

  /** parseHello */
  function HelloOf(root: Node, maxTextBytes: int, parseTime: TimeParser): Parsed {
    var clientId := ShortString(root, CLIENT_ID, MAX_NAME_BYTES);
    if clientId.None? then Err(Invalid(BadClientId, None))
    else
      var name := StringAt(root, CLIENT_NAME);
      var clientName := if name.Some? && |name.value| <= MAX_NAME_BYTES then name.value else [];
      var lastVersion := Uint64At(root, LAST_VERSION);
      if lastVersion.None? then Err(Invalid(BadLastVersion, None))
      else
        var element := Get(root, SNAPSHOT);
        if element.Some? && !element.value.Object? && !element.value.Null? then Err(Invalid(SnapshotIsNoObject, None))
        else if element.Some? && element.value.Object? then
          var bad := FirstBad(element.value.members, 0, SNAPSHOT_KEYS);
          if bad.Some? then Err(Invalid(UnknownOrDuplicate(bad.value), None))
          else
            var snapshot := SnapshotOf(element.value, maxTextBytes, parseTime);
            if snapshot.Err? then Err(snapshot.error)
            else CheckedHello(ClientHello(clientId.value, clientName, lastVersion.value, Some(snapshot.value)), maxTextBytes)
        else CheckedHello(ClientHello(clientId.value, clientName, lastVersion.value, None), maxTextBytes)
  }

  /** parseClip */
  function ClipOf(root: Node, maxTextBytes: int): Parsed {
    var id := ShortString(root, ID, MAX_ID_BYTES);
    if id.None? then Err(Invalid(BadId, None))
    else
      var payload := StringAt(root, PAYLOAD);
      if payload.None? || payload.value == [] then Err(ProtocolError(EmptyText, PayloadEmpty, id))
      else if |payload.value| > maxTextBytes then Err(ProtocolError(TextTooLarge, TooLarge, id))
      else if BoolAt(root, ENCRYPTED).None? then Err(Invalid(EncryptedMissing, id))
      else if ShortString(root, HASH, MAX_HASH_BYTES).None? then Err(Invalid(HashMissing, id))
      else
        var c := ClientClip(id.value, payload.value, BoolAt(root, ENCRYPTED).value, ShortString(root, HASH, MAX_HASH_BYTES).value);
        if ValidateClip(c, maxTextBytes) then Ok(Clip(c)) else Err(Invalid(ClipValidationFailed, id))
  }

  /** parsePong */
  function PongOf(root: Node, parseTime: TimeParser): Parsed {
    var t := TimeAt(root, CLIENT_TIME, parseTime);
    if t.None? then Err(Invalid(PongTimeMissing, None)) else Ok(Pong(t.value))
  }

  const HELLO_KEYS := [TYPE, CLIENT_ID, CLIENT_NAME, LAST_VERSION, SNAPSHOT]
  const CLIP_KEYS := [TYPE, ID, PAYLOAD, ENCRYPTED, HASH]
  const PONG_KEYS := [TYPE, CLIENT_TIME]

  function KnownFor(messageType: gostring): seq<gostring> {
    if messageType == HELLO then HELLO_KEYS
    else if messageType == CLIP then CLIP_KEYS
    else if messageType == PONG then PONG_KEYS
    else []
  }

  /** The switch at the end of ParseClientMessage. */
  function OfType(root: Node, messageType: gostring, maxTextBytes: int, parseTime: TimeParser): Parsed {
    if messageType == HELLO then HelloOf(root, maxTextBytes, parseTime)
    else if messageType == CLIP then ClipOf(root, maxTextBytes)
    else if messageType == PONG then PongOf(root, parseTime)
    else Err(Invalid(UnknownMessageType, StringAt(root, ID)))
  }

  function MessageOf(root: Node, maxTextBytes: int, parseTime: TimeParser): Parsed {
    if !root.Object? then Err(Invalid(RootIsNoObject, None))
    else
      var messageType := StringAt(root, TYPE);
      if messageType.None? then Err(Invalid(BadType, StringAt(root, ID)))
      else
        var bad := FirstBad(root.members, 0, KnownFor(messageType.value));
        if bad.Some? then Err(Invalid(UnknownOrDuplicate(bad.value), StringAt(root, ID)))
        else OfType(root, messageType.value, maxTextBytes, parseTime)
  }

  function FrameMessage(frame: gostring, maxTextBytes: int, parseTime: TimeParser): Parsed {
    match DecodeText(frame, 3)
    case None => Err(Invalid(InvalidJson, None))
    case Some(root) => MessageOf(root, maxTextBytes, parseTime)
  }

  method ParseClientMessage(frame: gostring, maxTextBytes: int, parseTime: TimeParser) returns (r: Parsed)
    ensures r == FrameMessage(frame, maxTextBytes, parseTime)
  {
    hide HelloOf, ClipOf, PongOf, StringAt, FirstBad, DecodeText;
    var decoded := Decode(frame, 3);
    if decoded.None? {
      return Err(Invalid(InvalidJson, None));
    }
    var root := decoded.value;
    if !root.Object? {
      return Err(Invalid(RootIsNoObject, None));
    }
    var messageType := StringAt(root, TYPE);
    if messageType.None? {
      return Err(Invalid(BadType, StringAt(root, ID)));
    }
    var bad := HasUniqueKnownProperties(root, KnownFor(messageType.value));
    if bad.Some? {
      return Err(Invalid(UnknownOrDuplicate(bad.value), StringAt(root, ID)));
    }
    r := OfType(root, messageType.value, maxTextBytes, parseTime);
  }

  // What is accepted is valid, and three of the error branches are dead.

  predicate IsValidMessage(m: Message, maxTextBytes: int) {
    match m
    case Hello(h) => ValidateHello(h, maxTextBytes)
    case Clip(c) => ValidateClip(c, maxTextBytes)
    case Pong(_) => true
  }

  lemma TypeIsKnown(root: Node)
    requires root.Object? && StringAt(root, TYPE).Some? && FirstBad(root.members, 0, KnownFor(StringAt(root, TYPE).value)).None?
    ensures var t := StringAt(root, TYPE).value; t == HELLO || t == CLIP || t == PONG
  {
    FirstBadIsUniqueKnown(root.members, KnownFor(StringAt(root, TYPE).value));
    var i :| 0 <= i < |root.members| && root.members[i].key == TYPE;
    assert root.members[i].key in KnownFor(StringAt(root, TYPE).value);
  }

  /** Accepted messages pass validation; "validation failed" and "unknown message type" are never answered. */
  lemma AcceptedIsValid(frame: gostring, maxTextBytes: int, parseTime: TimeParser)
    ensures match FrameMessage(frame, maxTextBytes, parseTime)
            case Ok(m) => IsValidMessage(m, maxTextBytes)
            case Err(e) => !e.reason.HelloValidationFailed? && !e.reason.ClipValidationFailed? && !e.reason.UnknownMessageType?
  {
    hide DecodeText, StringAt, FirstBad, BoolAt, Uint64At, TimeAt;
    var decoded := DecodeText(frame, 3);
    if decoded.Some? && decoded.value.Object? && StringAt(decoded.value, TYPE).Some?
       && FirstBad(decoded.value.members, 0, KnownFor(StringAt(decoded.value, TYPE).value)).None? {
      TypeIsKnown(decoded.value);
    }
  }

  // The order of members does not matter.

  /** The same value, or an object with the same members in another order. */
  ghost predicate SameValue(a: Node, b: Node) {
    a == b || (a.Object? && b.Object? && multiset(a.members) == multiset(b.members))
  }

  /** The same members up to the values' own order. */
  ghost predicate SameInside(ms: seq<Member>, ms': seq<Member>) {
    && |ms| == |ms'|
    && forall i :: 0 <= i < |ms| ==> ms[i].key == ms'[i].key && SameValue(ms[i].val, ms'[i].val)
  }

  /** Another order of the members, at the root and inside the values. */
  ghost predicate Reordered(n: Node, n': Node) {
    && n.Object? && n'.Object?
    && exists between: seq<Member> :: multiset(n.members) == multiset(between) && SameInside(between, n'.members)
  }

  lemma {:induction false} SameInsideFind(ms: seq<Member>, ms': seq<Member>, key: gostring)
    requires SameInside(ms, ms')
    ensures var v, v' := Find(ms, key), Find(ms', key);
            (v.None? && v'.None?) || (v.Some? && v'.Some? && SameValue(v.value, v'.value))
    decreases |ms|
  {
    hide SameValue;
    if ms != [] { SameInsideFind(ms[1..], ms'[1..], key); }
  }

  function Accepted(r: Parsed): Option<Message> {
    if r.Ok? then Some(r.value) else None
  }

  /** Values under every name are the same up to their own order. */
  ghost predicate Matches(n: Node, n': Node, key: gostring) {
    var v, v' := Get(n, key), Get(n', key);
    (v.None? && v'.None?) || (v.Some? && v'.Some? && SameValue(v.value, v'.value))
  }

  lemma MatchingScalars(n: Node, n': Node, key: gostring, parseTime: TimeParser)
    requires Matches(n, n', key)
    ensures StringAt(n, key) == StringAt(n', key) && BoolAt(n, key) == BoolAt(n', key) && Uint64At(n, key) == Uint64At(n', key)
    ensures TimeAt(n, key, parseTime) == TimeAt(n', key, parseTime)
  {
    hide Get;
  }

  lemma SameSnapshot(a: Node, b: Node, maxTextBytes: int, parseTime: TimeParser)
    requires a.Object? && b.Object? && multiset(a.members) == multiset(b.members) && UniqueKnown(a.members, SNAPSHOT_KEYS)
    ensures SnapshotOf(a, maxTextBytes, parseTime) == SnapshotOf(b, maxTextBytes, parseTime)
  {
    KnownIsDistinct(a.members, SNAPSHOT_KEYS);
    forall key ensures Matches(a, b, key) {
      PermutedFind(a.members, b.members, key);
    }
    MatchingScalars(a, b, PAYLOAD, parseTime);
    MatchingScalars(a, b, ENCRYPTED, parseTime);
    MatchingScalars(a, b, HASH, parseTime);
    MatchingScalars(a, b, MODIFIED, parseTime);
    hide StringAt, BoolAt, TimeAt, Matches;
  }

  lemma SameOutcome(n: Node, n': Node, messageType: gostring, maxTextBytes: int, parseTime: TimeParser)
    requires forall key :: Matches(n, n', key)
    ensures Accepted(OfType(n, messageType, maxTextBytes, parseTime)) == Accepted(OfType(n', messageType, maxTextBytes, parseTime))
  {
    hide StringAt, BoolAt, Uint64At, TimeAt, Matches, HelloOf;
    forall key ensures StringAt(n, key) == StringAt(n', key) && BoolAt(n, key) == BoolAt(n', key)
                    && Uint64At(n, key) == Uint64At(n', key) && TimeAt(n, key, parseTime) == TimeAt(n', key, parseTime) {
      MatchingScalars(n, n', key, parseTime);
    }
    assert Matches(n, n', SNAPSHOT);
    if messageType == HELLO { SameHello(n, n', maxTextBytes, parseTime); }
  }

  lemma SameHello(n: Node, n': Node, maxTextBytes: int, parseTime: TimeParser)
    requires Matches(n, n', SNAPSHOT)
    requires StringAt(n, CLIENT_ID) == StringAt(n', CLIENT_ID) && StringAt(n, CLIENT_NAME) == StringAt(n', CLIENT_NAME)
    requires Uint64At(n, LAST_VERSION) == Uint64At(n', LAST_VERSION)
    ensures Accepted(HelloOf(n, maxTextBytes, parseTime)) == Accepted(HelloOf(n', maxTextBytes, parseTime))
  {
    hide StringAt, Uint64At, Get, FirstBad, SnapshotOf, UniqueKnown;
    var v, v' := Get(n, SNAPSHOT), Get(n', SNAPSHOT);
    if v.Some? && v.value.Object? {
      var ms, ms' := v.value.members, v'.value.members;
      FirstBadIsUniqueKnown(ms, SNAPSHOT_KEYS);
      FirstBadIsUniqueKnown(ms', SNAPSHOT_KEYS);
      PermutedUniqueKnown(ms, ms', SNAPSHOT_KEYS);
      if UniqueKnown(ms, SNAPSHOT_KEYS) { SameSnapshot(v.value, v'.value, maxTextBytes, parseTime); }
    }
  }

  /** Reordering members at the root and inside the values never changes which message is accepted. */
  lemma OrderDoesNotMatter(n: Node, n': Node, maxTextBytes: int, parseTime: TimeParser)
    requires Reordered(n, n')
    ensures Accepted(MessageOf(n, maxTextBytes, parseTime)) == Accepted(MessageOf(n', maxTextBytes, parseTime))
  {
    hide OfType, UniqueKnown, KnownFor, SameInside;
    var between: seq<Member> :| multiset(n.members) == multiset(between) && SameInside(between, n'.members);
    var known := if StringAt(n, TYPE).Some? then KnownFor(StringAt(n, TYPE).value) else [];
    var known' := if StringAt(n', TYPE).Some? then KnownFor(StringAt(n', TYPE).value) else [];
    FirstBadIsUniqueKnown(n.members, known);
    FirstBadIsUniqueKnown(n'.members, known');
    PermutedUniqueKnown(n.members, between, known);
    PermutedUniqueKnown(n.members, between, known');
    SameInsideUniqueKnown(between, n'.members, known);
    SameInsideUniqueKnown(between, n'.members, known');
    if UniqueKnown(n.members, known) || UniqueKnown(n'.members, known') {
      KnownIsDistinct(n.members, known);
      KnownIsDistinct(n.members, known');
      AllMatch(n, between, n');
      MatchingScalars(n, n', TYPE, parseTime);
      if StringAt(n, TYPE).Some? { SameOutcome(n, n', StringAt(n, TYPE).value, maxTextBytes, parseTime); }
    }
  }

  lemma SameInsideUniqueKnown(ms: seq<Member>, ms': seq<Member>, known: seq<gostring>)
    requires SameInside(ms, ms')
    ensures UniqueKnown(ms, known) <==> UniqueKnown(ms', known)
  {
    hide SameValue;
  }

  lemma AllMatch(n: Node, between: seq<Member>, n': Node)
    requires n.Object? && n'.Object? && DistinctKeys(n.members)
    requires multiset(n.members) == multiset(between) && SameInside(between, n'.members)
    ensures forall key :: Matches(n, n', key)
  {
    hide SameInside, SameValue, DistinctKeys;
    forall key ensures Matches(n, n', key) {
      PermutedFind(n.members, between, key);
      SameInsideFind(between, n'.members, key);
    }
  }

  /** The same of frames. */
  lemma FrameOrderDoesNotMatter(frame: gostring, frame': gostring, maxTextBytes: int, parseTime: TimeParser)
    requires DecodeText(frame, 3).Some? && DecodeText(frame', 3).Some?
    requires Reordered(DecodeText(frame, 3).value, DecodeText(frame', 3).value)
    ensures Accepted(FrameMessage(frame, maxTextBytes, parseTime)) == Accepted(FrameMessage(frame', maxTextBytes, parseTime))
  {
    hide DecodeText, Reordered, MessageOf;
    OrderDoesNotMatter(DecodeText(frame, 3).value, DecodeText(frame', 3).value, maxTextBytes, parseTime);
  }

  // Exactly which objects are clips.

  function ClipMembers(c: ClientClip): seq<Member> {
    [Member(TYPE, Str(CLIP)), Member(ID, Str(c.id)), Member(PAYLOAD, Str(c.payload)),
     Member(ENCRYPTED, Bool(c.encrypted)), Member(HASH, Str(c.hash))]
  }

  lemma KeysDiffer()
    ensures TYPE != ID && TYPE != PAYLOAD && TYPE != ENCRYPTED && TYPE != HASH && ID != PAYLOAD && ID != ENCRYPTED && ID != HASH
    ensures PAYLOAD != ENCRYPTED && PAYLOAD != HASH && ENCRYPTED != HASH
    ensures HELLO != CLIP && HELLO != PONG && CLIP != PONG
  {
    assert TYPE[0] == 0x74 && ID[0] == 0x69 && PAYLOAD[0] == 0x70 && ENCRYPTED[0] == 0x65 && HASH[0] == 0x68;
    assert HELLO[0] == 0x68 && CLIP[0] == 0x63 && PONG[0] == 0x70;
  }

  lemma ClipMembersAreKnown(c: ClientClip)
    ensures UniqueKnown(ClipMembers(c), CLIP_KEYS)
  {
    KeysDiffer();
    var ms := ClipMembers(c);
    assert ms[0].key == CLIP_KEYS[0] && ms[1].key == CLIP_KEYS[1] && ms[2].key == CLIP_KEYS[2] && ms[3].key == CLIP_KEYS[3]
           && ms[4].key == CLIP_KEYS[4];
  }

  lemma ClipMembersParse(root: Node, c: ClientClip, maxTextBytes: int, parseTime: TimeParser)
    requires root.Object? && multiset(root.members) == multiset(ClipMembers(c)) && ValidateClip(c, maxTextBytes)
    ensures MessageOf(root, maxTextBytes, parseTime) == Ok(Clip(c))
  {
    hide UniqueKnown, Get, FirstBad;
    ClipMembersAreKnown(c);
    GetsOf(root, ClipMembers(c), CLIP_KEYS);
    FirstBadIsUniqueKnown(root.members, CLIP_KEYS);
    hide StringAt, BoolAt, MessageOf;
    ClipStrings(root, c);
    ClipParses(root, c, maxTextBytes, parseTime);
  }

  lemma ClipStrings(root: Node, c: ClientClip)
    requires forall m :: m in ClipMembers(c) ==> Get(root, m.key) == Some(m.val)
    ensures StringAt(root, TYPE) == Some(CLIP) && StringAt(root, ID) == Some(c.id) && StringAt(root, PAYLOAD) == Some(c.payload)
    ensures BoolAt(root, ENCRYPTED) == Some(c.encrypted) && StringAt(root, HASH) == Some(c.hash)
  {
    hide Get;
    var ms := ClipMembers(c);
    assert ms[0] in ms && ms[1] in ms && ms[2] in ms && ms[3] in ms && ms[4] in ms;
  }

  lemma ClipParses(root: Node, c: ClientClip, maxTextBytes: int, parseTime: TimeParser)
    requires root.Object? && FirstBad(root.members, 0, CLIP_KEYS).None? && ValidateClip(c, maxTextBytes)
    requires StringAt(root, TYPE) == Some(CLIP) && StringAt(root, ID) == Some(c.id) && StringAt(root, PAYLOAD) == Some(c.payload)
    requires BoolAt(root, ENCRYPTED) == Some(c.encrypted) && StringAt(root, HASH) == Some(c.hash)
    ensures MessageOf(root, maxTextBytes, parseTime) == Ok(Clip(c))
  {
    hide StringAt, BoolAt, FirstBad;
    KeysDiffer();
  }

  /** A clip is accepted exactly from an object of its five members in some order, if it is valid. */
  lemma ClipsExactly(root: Node, c: ClientClip, maxTextBytes: int, parseTime: TimeParser)
    requires root.Object?
    ensures MessageOf(root, maxTextBytes, parseTime) == Ok(Clip(c)) <==>
            multiset(root.members) == multiset(ClipMembers(c)) && ValidateClip(c, maxTextBytes)
  {
    if MessageOf(root, maxTextBytes, parseTime) == Ok(Clip(c)) {
      ClipIsItsMembers(root, c, maxTextBytes, parseTime);
    }
    if multiset(root.members) == multiset(ClipMembers(c)) && ValidateClip(c, maxTextBytes) {
      ClipMembersParse(root, c, maxTextBytes, parseTime);
    }
  }

  lemma ClipIsItsMembers(root: Node, c: ClientClip, maxTextBytes: int, parseTime: TimeParser)
    requires root.Object? && MessageOf(root, maxTextBytes, parseTime) == Ok(Clip(c))
    ensures multiset(root.members) == multiset(ClipMembers(c)) && ValidateClip(c, maxTextBytes)
  {
    hide FirstBad, UniqueKnown, MessageOf, Get;
    FirstBadIsUniqueKnown(root.members, CLIP_KEYS);
    ClipMembersAreKnown(c);
    ClipFields(root, c, maxTextBytes, parseTime);
    var ms := ClipMembers(c);
    forall k | k in CLIP_KEYS ensures exists m :: m in ms && m.key == k {
      var i :| 0 <= i < 5 && CLIP_KEYS[i] == k;
      assert ms[i] in ms && ms[i].key == k;
    }
    FromGets(root, ms, CLIP_KEYS);
  }

  lemma ClipFields(root: Node, c: ClientClip, maxTextBytes: int, parseTime: TimeParser)
    requires root.Object? && MessageOf(root, maxTextBytes, parseTime) == Ok(Clip(c))
    ensures ValidateClip(c, maxTextBytes) && FirstBad(root.members, 0, CLIP_KEYS).None?
    ensures forall m :: m in ClipMembers(c) ==> Get(root, m.key) == Some(m.val)
  {
    hide FirstBad;
    var t := StringAt(root, TYPE).value;
    IsA(root, maxTextBytes, parseTime);
    hide MessageOf, HelloOf, PongOf;
    assert StringAt(root, ID) == Some(c.id) && StringAt(root, PAYLOAD) == Some(c.payload)
        && BoolAt(root, ENCRYPTED) == Some(c.encrypted) && StringAt(root, HASH) == Some(c.hash);
  }

  /** An accepted message has the type, the names and the parser of its kind. */
  lemma IsA(root: Node, maxTextBytes: int, parseTime: TimeParser)
    requires root.Object?
    ensures forall c :: MessageOf(root, maxTextBytes, parseTime) == Ok(Clip(c)) <==>
              StringAt(root, TYPE) == Some(CLIP) && FirstBad(root.members, 0, CLIP_KEYS).None?
              && ClipOf(root, maxTextBytes) == Ok(Clip(c))
    ensures forall h :: MessageOf(root, maxTextBytes, parseTime) == Ok(Hello(h)) <==>
              StringAt(root, TYPE) == Some(HELLO) && FirstBad(root.members, 0, HELLO_KEYS).None?
              && HelloOf(root, maxTextBytes, parseTime) == Ok(Hello(h))
    ensures forall t :: MessageOf(root, maxTextBytes, parseTime) == Ok(Pong(t)) <==>
              StringAt(root, TYPE) == Some(PONG) && FirstBad(root.members, 0, PONG_KEYS).None?
              && PongOf(root, parseTime) == Ok(Pong(t))
  {
    KeysDiffer();
    KindsOf(root, maxTextBytes, parseTime);
    hide FirstBad, StringAt, ClipOf, HelloOf, PongOf;
  }

  lemma KindsOf(root: Node, maxTextBytes: int, parseTime: TimeParser)
    ensures ClipOf(root, maxTextBytes).Ok? ==> ClipOf(root, maxTextBytes).value.Clip?
    ensures HelloOf(root, maxTextBytes, parseTime).Ok? ==> HelloOf(root, maxTextBytes, parseTime).value.Hello?
    ensures PongOf(root, parseTime).Ok? ==> PongOf(root, parseTime).value.Pong?
  {
    hide FirstBad, StringAt, SnapshotOf, Get;
  }

  // Exactly which objects are hellos and pongs.

  ghost predicate TimeIs(text: gostring, t: int, parseTime: TimeParser) {
    text != [] && text[|text| - 1] == 0x5A && parseTime(text) == Some(t)
  }

  function PongMembers(text: gostring): seq<Member> {
    [Member(TYPE, Str(PONG)), Member(CLIENT_TIME, Str(text))]
  }

  function SnapshotMembers(s: ClipSnapshot, time: gostring): seq<Member> {
    [Member(PAYLOAD, Str(s.payload)), Member(ENCRYPTED, Bool(s.encrypted)), Member(HASH, Str(s.hash)), Member(MODIFIED, Str(time))]
  }

  lemma PongMembersAreKnown(text: gostring)
    ensures UniqueKnown(PongMembers(text), PONG_KEYS)
    ensures forall k :: k in PONG_KEYS ==> exists m :: m in PongMembers(text) && m.key == k
  {
    var ms := PongMembers(text);
    assert TYPE[0] == 0x74 && CLIENT_TIME[0] == 0x63;
    assert ms[0].key == PONG_KEYS[0] && ms[1].key == PONG_KEYS[1] && ms[0] in ms && ms[1] in ms;
  }

  /** A pong is accepted exactly from an object of its type and a time, in some order. */
  lemma PongsExactly(root: Node, t: int, maxTextBytes: int, parseTime: TimeParser)
    requires root.Object?
    ensures MessageOf(root, maxTextBytes, parseTime) == Ok(Pong(t)) <==>
            exists text :: multiset(root.members) == multiset(PongMembers(text)) && TimeIs(text, t, parseTime)
  {
    hide FirstBad, UniqueKnown, MessageOf, Get, ClipOf, HelloOf, PongMembers;
    IsA(root, maxTextBytes, parseTime);
    FirstBadIsUniqueKnown(root.members, PONG_KEYS);
    if MessageOf(root, maxTextBytes, parseTime) == Ok(Pong(t)) {
      var text := StringAt(root, CLIENT_TIME).value;
      PongMembersAreKnown(text);
      PongMembersFound(root, text);
      FromGets(root, PongMembers(text), PONG_KEYS);
    }
    forall text | multiset(root.members) == multiset(PongMembers(text)) && TimeIs(text, t, parseTime)
      ensures MessageOf(root, maxTextBytes, parseTime) == Ok(Pong(t)) {
      PongMembersAreKnown(text);
      GetsOf(root, PongMembers(text), PONG_KEYS);
      PongMembersFound(root, text);
    }
  }

  lemma PongMembersFound(root: Node, text: gostring)
    ensures (forall m :: m in PongMembers(text) ==> Get(root, m.key) == Some(m.val)) <==>
            Get(root, TYPE) == Some(Str(PONG)) && Get(root, CLIENT_TIME) == Some(Str(text))
  {
    hide Get;
    var ms := PongMembers(text);
    assert ms[0] in ms && ms[1] in ms;
  }

  lemma SnapshotMembersAreKnown(s: ClipSnapshot, time: gostring)
    ensures UniqueKnown(SnapshotMembers(s, time), SNAPSHOT_KEYS)
    ensures forall k :: k in SNAPSHOT_KEYS ==> exists m :: m in SnapshotMembers(s, time) && m.key == k
  {
    var ms := SnapshotMembers(s, time);
    assert PAYLOAD[0] == 0x70 && ENCRYPTED[0] == 0x65 && HASH[0] == 0x68 && MODIFIED[0] == 0x6C;
    assert ms[0].key == SNAPSHOT_KEYS[0] && ms[1].key == SNAPSHOT_KEYS[1] && ms[2].key == SNAPSHOT_KEYS[2]
        && ms[3].key == SNAPSHOT_KEYS[3];
    assert ms[0] in ms && ms[1] in ms && ms[2] in ms && ms[3] in ms;
  }

  lemma SnapshotMembersFound(root: Node, s: ClipSnapshot, time: gostring)
    ensures (forall m :: m in SnapshotMembers(s, time) ==> Get(root, m.key) == Some(m.val)) <==>
            && Get(root, PAYLOAD) == Some(Str(s.payload)) && Get(root, ENCRYPTED) == Some(Bool(s.encrypted))
            && Get(root, HASH) == Some(Str(s.hash)) && Get(root, MODIFIED) == Some(Str(time))
  {
    hide Get;
    var ms := SnapshotMembers(s, time);
    assert ms[0] in ms && ms[1] in ms && ms[2] in ms && ms[3] in ms;
  }

  /** The members are those of this snapshot, in some order, and within its limits. */
  ghost predicate DescribesSnapshot(members: seq<Member>, s: ClipSnapshot, maxTextBytes: int, parseTime: TimeParser) {
    && 0 < |s.payload| <= maxTextBytes && 0 < |s.hash| <= MAX_HASH_BYTES
    && exists time :: multiset(members) == multiset(SnapshotMembers(s, time)) && TimeIs(time, s.localModifiedAtUtc, parseTime)
  }

  lemma SnapshotsExactly(e: Node, s: ClipSnapshot, maxTextBytes: int, parseTime: TimeParser)
    requires e.Object?
    ensures FirstBad(e.members, 0, SNAPSHOT_KEYS).None? && SnapshotOf(e, maxTextBytes, parseTime) == Ok(s) <==>
            DescribesSnapshot(e.members, s, maxTextBytes, parseTime)
  {
    hide FirstBad, UniqueKnown, Get, SnapshotMembers;
    FirstBadIsUniqueKnown(e.members, SNAPSHOT_KEYS);
    if FirstBad(e.members, 0, SNAPSHOT_KEYS).None? && SnapshotOf(e, maxTextBytes, parseTime) == Ok(s) {
      var time := StringAt(e, MODIFIED).value;
      SnapshotMembersAreKnown(s, time);
      SnapshotMembersFound(e, s, time);
      FromGets(e, SnapshotMembers(s, time), SNAPSHOT_KEYS);
    }
    if DescribesSnapshot(e.members, s, maxTextBytes, parseTime) {
      var time :| multiset(e.members) == multiset(SnapshotMembers(s, time)) && TimeIs(time, s.localModifiedAtUtc, parseTime);
      SnapshotMembersAreKnown(s, time);
      GetsOf(e, SnapshotMembers(s, time), SNAPSHOT_KEYS);
      SnapshotMembersFound(e, s, time);
    }
  }

  /** The name given, if it is a string that is short enough, and otherwise no name. */
  ghost predicate DescribesName(members: seq<Member>, name: gostring) {
    || (|name| <= MAX_NAME_BYTES && Member(CLIENT_NAME, Str(name)) in members)
    || (name == [] && forall s :: Member(CLIENT_NAME, Str(s)) in members ==> |s| > MAX_NAME_BYTES)
  }

  ghost predicate DescribesVersion(members: seq<Member>, version: uint64) {
    exists raw :: Member(LAST_VERSION, Number(raw)) in members && Strconv.ParseUint(raw) == Some(version)
  }

  /** No snapshot member or null, or an object that describes the snapshot. */
  ghost predicate DescribesOptionalSnapshot(members: seq<Member>, snapshot: Option<ClipSnapshot>, maxTextBytes: int, parseTime: TimeParser) {
    match snapshot
    case None => forall v :: Member(SNAPSHOT, v) in members ==> v.Null?
    case Some(s) => exists inner :: Member(SNAPSHOT, Object(inner)) in members && DescribesSnapshot(inner, s, maxTextBytes, parseTime)
  }

  lemma NamesExactly(root: Node, name: gostring)
    requires root.Object? && DistinctKeys(root.members)
    ensures var s := StringAt(root, CLIENT_NAME);
            DescribesName(root.members, name) <==> name == if s.Some? && |s.value| <= MAX_NAME_BYTES then s.value else []
  {
    hide Get, DistinctKeys;
    forall s: gostring ensures Get(root, CLIENT_NAME) == Some(Str(s)) <==> Member(CLIENT_NAME, Str(s)) in root.members {
      GetIsMembership(root, CLIENT_NAME, Str(s));
    }
  }

  lemma VersionsExactly(root: Node, version: uint64)
    requires root.Object? && DistinctKeys(root.members)
    ensures DescribesVersion(root.members, version) <==> Uint64At(root, LAST_VERSION) == Some(version)
  {
    hide Get, DistinctKeys, Strconv.ParseUint;
    forall raw: gostring ensures Get(root, LAST_VERSION) == Some(Number(raw)) <==> Member(LAST_VERSION, Number(raw)) in root.members {
      GetIsMembership(root, LAST_VERSION, Number(raw));
    }
  }

  lemma OptionalSnapshotsExactly(root: Node, snapshot: Option<ClipSnapshot>, maxTextBytes: int, parseTime: TimeParser)
    requires root.Object? && DistinctKeys(root.members)
    ensures var v := Get(root, SNAPSHOT);
            DescribesOptionalSnapshot(root.members, snapshot, maxTextBytes, parseTime) <==>
            match snapshot
            case None => v.None? || v.value.Null?
            case Some(s) => v.Some? && v.value.Object? && DescribesSnapshot(v.value.members, s, maxTextBytes, parseTime)
  {
    hide Get, DistinctKeys, DescribesSnapshot;
    forall v: Node ensures Get(root, SNAPSHOT) == Some(v) <==> Member(SNAPSHOT, v) in root.members {
      GetIsMembership(root, SNAPSHOT, v);
    }
  }

  /** A hello is accepted exactly from an object without unknown or repeated members that says so. */
  lemma HellosExactly(root: Node, h: ClientHello, maxTextBytes: int, parseTime: TimeParser)
    requires root.Object?
    ensures MessageOf(root, maxTextBytes, parseTime) == Ok(Hello(h)) <==>
            && UniqueKnown(root.members, HELLO_KEYS)
            && Member(TYPE, Str(HELLO)) in root.members
            && Member(CLIENT_ID, Str(h.clientId)) in root.members && 0 < |h.clientId| <= MAX_NAME_BYTES
            && DescribesName(root.members, h.clientName)
            && DescribesVersion(root.members, h.lastServerVersion)
            && DescribesOptionalSnapshot(root.members, h.snapshot, maxTextBytes, parseTime)
  {
    hide FirstBad, UniqueKnown, MessageOf, Get, ClipOf, PongOf, DistinctKeys, DescribesName, DescribesVersion,
         DescribesOptionalSnapshot, Uint64At, HelloOf;
    IsA(root, maxTextBytes, parseTime);
    FirstBadIsUniqueKnown(root.members, HELLO_KEYS);
    if UniqueKnown(root.members, HELLO_KEYS) {
      KnownIsDistinct(root.members, HELLO_KEYS);
      GetIsMembership(root, TYPE, Str(HELLO));
      GetIsMembership(root, CLIENT_ID, Str(h.clientId));
      NamesExactly(root, h.clientName);
      VersionsExactly(root, h.lastServerVersion);
      OptionalSnapshotsExactly(root, h.snapshot, maxTextBytes, parseTime);
      HelloFields(root, h, maxTextBytes, parseTime);
    }
  }

  lemma HelloFields(root: Node, h: ClientHello, maxTextBytes: int, parseTime: TimeParser)
    ensures var name, v := StringAt(root, CLIENT_NAME), Get(root, SNAPSHOT);
            HelloOf(root, maxTextBytes, parseTime) == Ok(Hello(h)) <==>
            && ShortString(root, CLIENT_ID, MAX_NAME_BYTES) == Some(h.clientId)
            && h.clientName == (if name.Some? && |name.value| <= MAX_NAME_BYTES then name.value else [])
            && Uint64At(root, LAST_VERSION) == Some(h.lastServerVersion)
            && match h.snapshot
               case None => v.None? || v.value.Null?
               case Some(s) => v.Some? && v.value.Object? && DescribesSnapshot(v.value.members, s, maxTextBytes, parseTime)
  {
    hide FirstBad, Get, DescribesSnapshot, Uint64At, SnapshotOf;
    var v := Get(root, SNAPSHOT);
    if v.Some? && v.value.Object? {
      forall s: ClipSnapshot
        ensures FirstBad(v.value.members, 0, SNAPSHOT_KEYS).None? && SnapshotOf(v.value, maxTextBytes, parseTime) == Ok(s) <==>
                DescribesSnapshot(v.value.members, s, maxTextBytes, parseTime) {
        SnapshotsExactly(v.value, s, maxTextBytes, parseTime);
      }
      forall s: ClipSnapshot | DescribesSnapshot(v.value.members, s, maxTextBytes, parseTime)
        ensures 0 < |s.payload| <= maxTextBytes && |s.hash| <= MAX_HASH_BYTES {
        SnapshotLimits(v.value.members, s, maxTextBytes, parseTime);
      }
    }
  }

  lemma SnapshotLimits(members: seq<Member>, s: ClipSnapshot, maxTextBytes: int, parseTime: TimeParser)
    requires DescribesSnapshot(members, s, maxTextBytes, parseTime)
    ensures 0 < |s.payload| <= maxTextBytes && |s.hash| <= MAX_HASH_BYTES
  {
  }
}
