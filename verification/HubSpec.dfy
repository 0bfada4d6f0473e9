/** What each operation of a user's hub does, as functions on values (internal/hub/hub.go). `C` is the type of
    connections. A hub value carries the views of all connections and a ledger of what has happened so far. */
module HubSpec {
  import opened Base
  import opened Messages
  import opened Connections
  import opened SeenIdRing
  import opened TokenBucket
  import opened SnapshotElection

  datatype Config = Config(seenIdCapacity: int, clipBurst: int, clipRate: real, snapshotTotalBytes: int,
                           recoveryCapacity: int, processStart: int, snapshotWindow: int)

  /** The positivity checks of config.Validate. */
  predicate ValidConfig(cfg: Config) {
    && 0 < cfg.seenIdCapacity && 0 < cfg.clipBurst && 0.0 < cfg.clipRate && 0 < cfg.snapshotTotalBytes
    && 0 < cfg.recoveryCapacity && 0 < cfg.snapshotWindow
  }

  datatype RecoveryClip<+C> = RecoveryClip(clip: ClientClip, connection: C)

  datatype Job<+C> =
    | ClipJob(sender: C, clip: ClientClip)
    | HelloJob(connection: C, hello: ClientHello)
    | PongJob(connection: C)
    | DisconnectJob(connection: C)

  datatype HubState<!C(==)> = HubState(
    version: uint64, latest: Option<LatestText>, stored: uint64,
    connections: seq<C>, links: map<C, Link>,
    candidates: seq<ClientHello>, snapshotBytes: int, recoveryQueue: seq<RecoveryClip<C>>, windowClosed: bool,
    ring: seq<Call<Option<LatestText>>>, grants: seq<int>, lastRefill: int, jobs: seq<Job<C>>,
    // The ledger: texts given a version, how many of them each connection missed by joining later, clips that
    // were queued for recovery, those considered when the window closed, and whether that ended in a welcome.
    issued: seq<LatestText>, joinedAt: map<C, nat>, queued: seq<RecoveryClip<C>>, considered: seq<RecoveryClip<C>>,
    welcomed: bool)

  /** A hub just made, for a user whose stored version is `initialVersion`. */
  function NewHub<C>(cfg: Config, initialVersion: uint64, links: map<C, Link>): HubState<C> {
    HubState(initialVersion, None, initialVersion, [], links, [], 0, [], false, [], [], cfg.processStart, [],
             [], map[], [], [], false)
  }

  function OfferTo<C>(links: map<C, Link>, c: C, d: Delivery): map<C, Link>
    requires c in links
  {
    links[c := Offered(links[c], d)]
  }

  /** Every listed connection except one is offered the frame, once. */
  ghost function Broadcast<C>(links: map<C, Link>, listed: seq<C>, except: Option<C>, d: Delivery): (r: map<C, Link>)
    ensures r.Keys == links.Keys
  {
    map c | c in links :: if c in listed && except != Some(c) then Offered(links[c], d) else links[c]
  }

  ghost predicate Knows<C>(h: HubState<C>, c: C) {
    c in h.links && forall x :: x in h.connections ==> x in h.links
  }

  // Applying one clip.

  datatype Outcome = Duplicate | RateLimited | Overflow | Fresh

  /** The remembered text of a clip resent unchanged. */
  ghost function Remembered<C>(h: HubState<C>, cfg: Config, clip: ClientClip): Option<LatestText> {
    match Lookup(h.ring, cfg.seenIdCapacity, clip.id)
    case None => None
    case Some(text) => if Unchanged(text, clip.payload, clip.hash, clip.encrypted) then text else None
  }

  ghost predicate Granted<C>(h: HubState<C>, cfg: Config, now: int) {
    h.lastRefill <= now && Affordable(cfg.clipBurst, cfg.clipRate, cfg.processStart, h.grants, now)
  }

  function TextOf(clip: ClientClip, version: uint64, sender: Link, now: int): LatestText {
    LatestText(clip.payload, version, clip.hash, clip.encrypted, sender.clientId, sender.clientName, now)
  }

  /** Assigning a version: everything that a fresh clip changes. */
  ghost function Assign<C>(h: HubState<C>, clip: ClientClip, sender: C, version: uint64, now: int): HubState<C>
    requires Knows(h, sender)
  {
    var text := TextOf(clip, version, h.links[sender], now);
    var told := Broadcast(h.links, h.connections, Some(sender), Delivery(ClipFrame(clip.id, text), true));
    h.(version := version, latest := Some(text), stored := Max(h.stored, version),
       ring := h.ring + [Call(clip.id, Some(text))],
       links := OfferTo(told, sender, Delivery(AckFrame(clip.id, text), true)),
       issued := h.issued + [text])
  }

  /** A token taken. */
  ghost function Charged<C>(h: HubState<C>, now: int): HubState<C> {
    h.(grants := h.grants + [now], lastRefill := Max(h.lastRefill, now))
  }

  ghost function ApplyClip<C>(h: HubState<C>, cfg: Config, clip: ClientClip, sender: C, now: int): (HubState<C>, Outcome)
    requires Knows(h, sender)
  {
    var duplicate := Remembered(h, cfg, clip);
    if duplicate.Some? then
      (h.(links := OfferTo(h.links, sender, Delivery(AckFrame(clip.id, duplicate.value), false))), Duplicate)
    else if !Granted(h, cfg, now) then
      (h.(lastRefill := Max(h.lastRefill, now), links := OfferTo(h.links, sender, Delivery(RateLimitedFrame(clip.id), false))),
       RateLimited)
    else
      var charged := Charged(h, now);
      var next := NextVersion(h.version);
      if next.None? then (charged, Overflow) else (Assign(charged, clip, sender, next.value, now), Fresh)
  }

  // The recovery window.

  /** Restoring the elected snapshot. */
  ghost function Restore<C>(h: HubState<C>): HubState<C> {
    var winner := Elect(h.candidates);
    if winner.None? then h
    else
      var w := winner.value;
      if w.version > h.version || (w.version == h.version && h.latest.None?) then
        h.(version := w.version, latest := Some(LatestFromSnapshot(w.snapshot, w.version, w.clientId, w.clientName)),
           stored := if w.version > h.version then Max(h.stored, w.version) else h.stored)
      else h
  }

  ghost predicate AllKnown<C>(h: HubState<C>, clips: seq<RecoveryClip<C>>) {
    && (forall x :: x in h.connections ==> x in h.links)
    && (forall i :: 0 <= i < |clips| ==> clips[i].connection in h.links)
  }

  /** Considering the queued clips in order, skipping those of closed connections; true means it panicked. */
  ghost function Drain<C>(h: HubState<C>, cfg: Config, clips: seq<RecoveryClip<C>>, now: int): (r: (HubState<C>, bool))
    requires AllKnown(h, clips)
    ensures r.0.connections == h.connections && r.0.links.Keys == h.links.Keys
    decreases |clips|
  {
    if clips == [] then (h, false)
    else
      var n := |clips| - 1;
      var (front, panicked) := Drain(h, cfg, clips[..n], now);
      if panicked then (front, true)
      else Consider(front, cfg, clips[n], now)
  }

  ghost function Consider<C>(h: HubState<C>, cfg: Config, r: RecoveryClip<C>, now: int): (s: (HubState<C>, bool))
    requires Knows(h, r.connection)
    ensures s.0.connections == h.connections && s.0.links.Keys == h.links.Keys
  {
    var noted := h.(considered := h.considered + [r]);
    if h.links[r.connection].closed then (noted, false)
    else
      var (applied, outcome) := ApplyClip(noted, cfg, r.clip, r.connection, now);
      (applied, outcome.Overflow?)
  }

  ghost function WelcomeAll<C>(h: HubState<C>): HubState<C> {
    h.(links := Broadcast(h.links, h.connections, None, Delivery(Welcome(h.latest), false)), welcomed := true)
  }

  /** Elect, restore, consider the queue, welcome everyone. */
  ghost function CloseWindow<C>(h: HubState<C>, cfg: Config, now: int): (HubState<C>, bool)
    requires AllKnown(h, h.recoveryQueue)
  {
    if h.windowClosed then (h, false)
    else
      var restored := Restore(h).(windowClosed := true, recoveryQueue := []);
      var (drained, panicked) := Drain(restored, cfg, h.recoveryQueue, now);
      if panicked then (drained, true) else (WelcomeAll(drained), false)
  }

  predicate WindowIsDue(cfg: Config, now: int) {
    now >= cfg.processStart + cfg.snapshotWindow
  }

  ghost function EnsureClosed<C>(h: HubState<C>, cfg: Config, now: int): (HubState<C>, bool)
    requires AllKnown(h, h.recoveryQueue)
  {
    if WindowIsDue(cfg, now) then CloseWindow(h, cfg, now) else (h, false)
  }

  ghost function AcceptSnapshot<C>(h: HubState<C>, cfg: Config, hello: ClientHello): HubState<C> {
    if h.windowClosed || hello.snapshot.None? || h.snapshotBytes + |hello.snapshot.value.payload| > cfg.snapshotTotalBytes then h
    else h.(candidates := h.candidates + [hello], snapshotBytes := h.snapshotBytes + |hello.snapshot.value.payload|)
  }

  datatype Decision = Queued | ProcessNow | QueueFull

  ghost function ClassifyClip<C>(h: HubState<C>, cfg: Config, clip: ClientClip, c: C): (HubState<C>, Decision) {
    if h.windowClosed then (h, ProcessNow)
    else if |h.recoveryQueue| >= cfg.recoveryCapacity then (h, QueueFull)
    else
      var r := RecoveryClip(clip, c);
      (h.(recoveryQueue := h.recoveryQueue + [r], queued := h.queued + [r]), Queued)
  }

  // Connections coming and going.

  ghost function AddConnection<C>(h: HubState<C>, cfg: Config, c: C, now: int): (HubState<C>, bool)
    requires Knows(h, c) && AllKnown(h, h.recoveryQueue)
  {
    var joined := h.(connections := h.connections + [c], joinedAt := h.joinedAt[c := |h.issued|]);
    if h.windowClosed then (joined.(links := OfferTo(h.links, c, Delivery(Welcome(h.latest), false))), false)
    else EnsureClosed(joined, cfg, now)
  }

  /** The list without the first occurrence. */
  ghost function Without<C>(cs: seq<C>, c: C): (r: seq<C>)
    ensures forall x :: x in r ==> x in cs
  {
    if cs == [] then []
    else if cs[0] == c then cs[1..]
    else [cs[0]] + Without(cs[1..], c)
  }

  ghost function RemoveConnection<C>(h: HubState<C>, c: C): HubState<C> {
    h.(connections := Without(h.connections, c))
  }

  /** CancelConnection: only the first call does anything. */
  ghost function Cancel<C>(h: HubState<C>, c: C): HubState<C>
    requires c in h.links
  {
    if h.links[c].closed then h else RemoveConnection(h.(links := h.links[c := h.links[c].(closed := true)]), c)
  }

  // The read loop and the user loop.

  /** A clip arrives: queued, handed to the user loop, or refused with its connection. */
  ghost function Receive<C>(h: HubState<C>, cfg: Config, clip: ClientClip, c: C): HubState<C>
    requires c in h.links
  {
    var (next, decision) := ClassifyClip(h, cfg, clip, c);
    match decision
    case Queued => next
    case ProcessNow => next.(jobs := next.jobs + [ClipJob(c, clip)])
    case QueueFull => Cancel(next, c)
  }

  ghost function ConnectionOf<C>(job: Job<C>): C {
    match job
    case ClipJob(sender, _) => sender
    case HelloJob(connection, _) => connection
    case PongJob(connection) => connection
    case DisconnectJob(connection) => connection
  }

  ghost function ProcessJob<C>(h: HubState<C>, cfg: Config, job: Job<C>, now: int): (HubState<C>, bool)
    requires Knows(h, ConnectionOf(job))
  {
    match job
    case ClipJob(sender, clip) =>
      var (next, outcome) := ApplyClip(h, cfg, clip, sender, now);
      (next, outcome.Overflow?)
    case PongJob(c) => (h.(links := h.links[c := h.links[c].(lastSeen := now)]), false)
    case HelloJob(c, hello) =>
      (AcceptSnapshot(h.(links := h.links[c := h.links[c].(helloReceived := true)]), cfg, hello), false)
    case DisconnectJob(c) => (Cancel(h, c), false)
  }
}
