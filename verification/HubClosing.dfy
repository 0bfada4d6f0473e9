/** Which queued clips get a version when the recovery window closes (internal/hub/hub.go, internal/core/bucket.go):
    a law on the queue, the room in the connections' queues and the burst, all known before the close. */
module HubClosing {
  import opened Base
  import opened Messages
  import opened Connections
  import opened SeenIdRing
  import opened TokenBucket
  import opened SnapshotElection
  import opened HubSpec
  import opened HubInvariants
  import HubOverflow

  // The law.

  /** The clips given a version so far, and the free places in each connection's queue, none once it is closed. */
  datatype Closing<!C(==)> = Closing(taken: seq<ClientClip>, room: map<C, Option<nat>>)

  /** One frame more. */
  function Used(room: Option<nat>): Option<nat> {
    if room.None? || room.value == 0 then None else Some(room.value - 1)
  }

  function RoomOf(l: Link): Option<nat> {
    if l.closed then None else if |l.queue| <= l.capacity then Some(l.capacity - |l.queue|) else Some(0)
  }

  predicate SameClip(a: ClientClip, b: ClientClip) {
    a.payload == b.payload && a.hash == b.hash && a.encrypted == b.encrypted
  }

  function Calls(taken: seq<ClientClip>): seq<Call<ClientClip>> {
    seq(|taken|, i requires 0 <= i < |taken| => Call(taken[i].id, taken[i]))
  }

  /** The ring, having seen the clips taken, still holds this one with the same content. */
  ghost predicate Repeats(taken: seq<ClientClip>, clip: ClientClip, capacity: int) {
    var held := Lookup(Calls(taken), capacity, clip.id);
    held.Some? && SameClip(held.value, clip)
  }

  /** All clips are considered at one instant, so the bucket has its burst for them and nothing more. */
  function Budget(cfg: Config, now: int): int {
    if cfg.processStart <= now then cfg.clipBurst else 0
  }

  ghost function ServeOne<C>(s: Closing<C>, cfg: Config, listed: seq<C>, r: RecoveryClip<C>, budget: int): (s': Closing<C>)
    requires r.connection in s.room
    ensures s'.room.Keys == s.room.Keys
  {
    var c := r.connection;
    if s.room[c].None? then s
    else if Repeats(s.taken, r.clip, cfg.seenIdCapacity) || |s.taken| >= budget then s.(room := s.room[c := Used(s.room[c])])
    else Closing(s.taken + [r.clip], map x | x in s.room :: if x in listed || x == c then Used(s.room[x]) else s.room[x])
  }

  ghost function ServeAll<C>(s: Closing<C>, cfg: Config, listed: seq<C>, clips: seq<RecoveryClip<C>>, budget: int): (s': Closing<C>)
    requires forall i :: 0 <= i < |clips| ==> clips[i].connection in s.room
    ensures s'.room.Keys == s.room.Keys
    decreases |clips|
  {
    if clips == [] then s
    else
      var n := |clips| - 1;
      ServeOne(ServeAll(s, cfg, listed, clips[..n], budget), cfg, listed, clips[n], budget)
  }

  ghost function Rooms<C>(links: map<C, Link>): (r: map<C, Option<nat>>)
    ensures r.Keys == links.Keys
  {
    map c | c in links :: RoomOf(links[c])
  }

  /** The clips of the recovery queue that get a version, in order. */
  ghost function Served<C>(h: HubState<C>, cfg: Config, now: int): seq<ClientClip>
    requires AllKnown(h, h.recoveryQueue)
  {
    ServeAll(Closing([], Rooms(h.links)), cfg, h.connections, h.recoveryQueue, Budget(cfg, now)).taken
  }

  // The hub while it drains, against the law.

  ghost predicate SameCall(a: Call<Option<LatestText>>, clip: ClientClip) {
    && a.id == clip.id
    && a.value.Some? && a.value.value.payload == clip.payload && a.value.value.hash == clip.hash && a.value.value.encrypted == clip.encrypted
  }

  ghost predicate AtOnce<C>(h: HubState<C>, cfg: Config, now: int) {
    && (h.lastRefill == cfg.processStart || (h.lastRefill == now && cfg.processStart <= now))
    && (forall i :: 0 <= i < |h.grants| ==> h.grants[i] == now)
  }

  ghost predicate Follows<C>(h: HubState<C>, s: Closing<C>, cfg: Config, now: int) {
    && s.room == Rooms(h.links)
    && AtOnce(h, cfg, now)
    && |h.ring| == |h.issued| == |h.grants| == |s.taken|
    && (forall i :: 0 <= i < |s.taken| ==> SameCall(h.ring[i], s.taken[i]))
  }

  lemma {:induction false} SinceAll(grants: seq<int>, now: int, instant: int)
    requires instant <= now && forall i :: 0 <= i < |grants| ==> grants[i] == now
    ensures Since(grants, instant) == |grants|
    decreases |grants|
  {
    if grants != [] { SinceAll(grants[..|grants| - 1], now, instant); }
  }

  /** At one instant the bucket grants exactly while its burst lasts. */
  lemma GrantedIsBudget<C>(h: HubState<C>, cfg: Config, now: int)
    requires ValidConfig(cfg) && AtOnce(h, cfg, now)
    ensures Granted(h, cfg, now) <==> |h.grants| < Budget(cfg, now)
  {
    if cfg.processStart <= now {
      forall instant | cfg.processStart <= instant <= now
        ensures Since(h.grants, instant) == |h.grants| && Earned(cfg.clipRate, instant, now) >= 0.0 {
        SinceAll(h.grants, now, instant);
        EarnedGrows(cfg.clipRate, instant, now, now);
      }
      assert Earned(cfg.clipRate, now, now) == 0.0;
      assert Affordable(cfg.clipBurst, cfg.clipRate, cfg.processStart, h.grants, now) ==>
        (Since(h.grants, now) + 1) as real <= cfg.clipBurst as real + Earned(cfg.clipRate, now, now);
    }
  }

  lemma {:induction false} SameLast(ring: seq<Call<Option<LatestText>>>, taken: seq<ClientClip>, id: gostring)
    requires |ring| == |taken| && forall i :: 0 <= i < |taken| ==> ring[i].id == taken[i].id
    ensures LastCall(ring, id) == LastCall(Calls(taken), id)
    decreases |ring|
  {
    if ring != [] {
      var n := |ring| - 1;
      assert Calls(taken)[..n] == Calls(taken[..n]);
      SameLast(ring[..n], taken[..n], id);
    }
  }

  lemma SameNotCalled(ring: seq<Call<Option<LatestText>>>, taken: seq<ClientClip>, id: gostring, lo: int, hi: int)
    requires |ring| == |taken| && forall i :: 0 <= i < |taken| ==> ring[i].id == taken[i].id
    ensures NotCalledIn(ring, id, lo, hi) == NotCalledIn(Calls(taken), id, lo, hi)
  {
    assert forall j :: 0 <= j < |ring| ==> Calls(taken)[j].id == ring[j].id;
  }

  lemma RememberedIsRepeats<C>(h: HubState<C>, taken: seq<ClientClip>, cfg: Config, clip: ClientClip)
    requires |h.ring| == |taken| && forall i :: 0 <= i < |taken| ==> SameCall(h.ring[i], taken[i])
    ensures Remembered(h, cfg, clip).Some? <==> Repeats(taken, clip, cfg.seenIdCapacity)
  {
    SameLast(h.ring, taken, clip.id);
    forall lo: int, hi: int ensures NotCalledIn(h.ring, clip.id, lo, hi) == NotCalledIn(Calls(taken), clip.id, lo, hi) {
      SameNotCalled(h.ring, taken, clip.id, lo, hi);
    }
    hide LastCall, NotCalledIn;
    assert Holds(h.ring, cfg.seenIdCapacity, clip.id) == Holds(Calls(taken), cfg.seenIdCapacity, clip.id);
  }

  lemma OfferedUses(l: Link, d: Delivery)
    ensures RoomOf(Offered(l, d)) == Used(RoomOf(l))
  {
  }

  lemma OfferRooms<C>(links: map<C, Link>, c: C, d: Delivery)
    requires c in links
    ensures Rooms(OfferTo(links, c, d)) == Rooms(links)[c := Used(RoomOf(links[c]))]
  {
    hide RoomOf, Used, Offered;
    OfferedUses(links[c], d);
  }

  lemma BroadcastRooms<C>(links: map<C, Link>, listed: seq<C>, c: C, d: Delivery, ack: Delivery)
    requires c in links
    ensures Rooms(OfferTo(Broadcast(links, listed, Some(c), d), c, ack)) ==
            map x | x in links :: if x in listed || x == c then Used(RoomOf(links[x])) else RoomOf(links[x])
  {
    hide RoomOf, Used, Offered;
    forall x | x in links ensures RoomOf(Offered(links[x], d)) == Used(RoomOf(links[x])) {
      OfferedUses(links[x], d);
    }
    OfferedUses(links[c], ack);
  }

  lemma RoomAt<C>(h: HubState<C>, s: Closing<C>, cfg: Config, now: int, c: C)
    requires Follows(h, s, cfg, now) && c in h.links
    ensures c in s.room && s.room[c] == RoomOf(h.links[c])
    ensures s.room[c].None? <==> h.links[c].closed
  {
  }

  /** The three fates of a queued clip of an open connection. */
  lemma DuplicateFollows<C>(h: HubState<C>, s: Closing<C>, cfg: Config, clip: ClientClip, c: C, now: int)
    requires Follows(h, s, cfg, now) && Knows(h, c) && Remembered(h, cfg, clip).Some?
    ensures var (h', outcome) := ApplyClip(h, cfg, clip, c, now);
            outcome.Duplicate? && Follows(h', s.(room := s.room[c := Used(s.room[c])]), cfg, now)
  {
    hide Remembered, Granted, OfferTo, Assign, RoomOf, Used, Rooms, SameCall;
    RoomsAt(h.links, c);
    OfferRooms(h.links, c, Delivery(AckFrame(clip.id, Remembered(h, cfg, clip).value), false));
  }

  lemma RoomsAt<C>(links: map<C, Link>, c: C)
    requires c in links
    ensures c in Rooms(links) && Rooms(links)[c] == RoomOf(links[c])
  {
  }

  lemma LimitedFollows<C>(h: HubState<C>, s: Closing<C>, cfg: Config, clip: ClientClip, c: C, now: int)
    requires Follows(h, s, cfg, now) && Knows(h, c) && Remembered(h, cfg, clip).None? && !Granted(h, cfg, now)
    ensures var (h', outcome) := ApplyClip(h, cfg, clip, c, now);
            outcome.RateLimited? && Follows(h', s.(room := s.room[c := Used(s.room[c])]), cfg, now)
  {
    hide Remembered, Granted, OfferTo, Assign, RoomOf, Used, Rooms, SameCall;
    RoomsAt(h.links, c);
    OfferRooms(h.links, c, Delivery(RateLimitedFrame(clip.id), false));
  }

  ghost function Taken<C>(s: Closing<C>, listed: seq<C>, clip: ClientClip, c: C): Closing<C> {
    Closing(s.taken + [clip], map x | x in s.room :: if x in listed || x == c then Used(s.room[x]) else s.room[x])
  }

  lemma TakenRooms<C>(h: HubState<C>, s: Closing<C>, clip: ClientClip, c: C, version: uint64, now: int)
    requires Knows(h, c) && Knows(Charged(h, now), c) && s.room == Rooms(h.links)
    ensures Taken(s, h.connections, clip, c).room == Rooms(Assign(Charged(h, now), clip, c, version, now).links)
  {
    hide RoomOf, Used, Broadcast, OfferTo, TextOf;
    var text := TextOf(clip, version, h.links[c], now);
    BroadcastRooms(h.links, h.connections, c, Delivery(ClipFrame(clip.id, text), true), Delivery(AckFrame(clip.id, text), true));
  }

  lemma FreshFollows<C>(h: HubState<C>, s: Closing<C>, cfg: Config, clip: ClientClip, c: C, now: int)
    requires Follows(h, s, cfg, now) && Knows(h, c) && Knows(Charged(h, now), c) && cfg.processStart <= now && h.version < MAX_UINT64
    ensures Follows(Assign(Charged(h, now), clip, c, h.version + 1, now), Taken(s, h.connections, clip, c), cfg, now)
  {
    TakenRooms(h, s, clip, c, h.version + 1, now);
    AssignAdds(h, clip, c, h.version + 1, now);
    ChargedAtOnce(h, cfg, now);
    hide Rooms, Assign, AtOnce, SameCall;
  }

  /** What a fresh clip adds to ring, texts and grants. */
  lemma AssignAdds<C>(h: HubState<C>, clip: ClientClip, c: C, version: uint64, now: int)
    requires Knows(h, c) && Knows(Charged(h, now), c)
    ensures var h' := Assign(Charged(h, now), clip, c, version, now);
            && |h'.ring| == |h.ring| + 1 && h'.ring[..|h.ring|] == h.ring && SameCall(h'.ring[|h.ring|], clip)
            && |h'.issued| == |h.issued| + 1 && h'.grants == h.grants + [now] && h'.lastRefill == Max(h.lastRefill, now)
            && forall i :: 0 <= i < |h.ring| ==> h'.ring[i] == h.ring[i]
  {
    hide Broadcast, OfferTo;
  }

  lemma ChargedAtOnce<C>(h: HubState<C>, cfg: Config, now: int)
    requires AtOnce(h, cfg, now) && cfg.processStart <= now
    ensures forall h': HubState<C> :: h'.grants == h.grants + [now] && h'.lastRefill == Max(h.lastRefill, now) ==> AtOnce(h', cfg, now)
  {
  }

  lemma ApplyFollows<C>(h: HubState<C>, s: Closing<C>, cfg: Config, r: RecoveryClip<C>, now: int)
    requires ValidConfig(cfg) && Follows(h, s, cfg, now) && Knows(h, r.connection) && !h.links[r.connection].closed
    ensures r.connection in s.room
    ensures var (h', outcome) := ApplyClip(h, cfg, r.clip, r.connection, now);
            !outcome.Overflow? ==> Follows(h', ServeOne(s, cfg, h.connections, r, Budget(cfg, now)), cfg, now)
  {
    GrantedIsBudget(h, cfg, now);
    RememberedIsRepeats(h, s.taken, cfg, r.clip);
    RoomAt(h, s, cfg, now, r.connection);
    hide Follows, Remembered, Granted, Assign, Repeats;
    var c := r.connection;
    if Remembered(h, cfg, r.clip).Some? {
      DuplicateFollows(h, s, cfg, r.clip, c, now);
    } else if !Granted(h, cfg, now) {
      LimitedFollows(h, s, cfg, r.clip, c, now);
    } else if h.version < MAX_UINT64 {
      HubOverflow.GrantedIs(h, cfg, r.clip, c, now);
      hide ApplyClip, Knows;
      FreshFollows(h, s, cfg, r.clip, c, now);
    }
  }

  lemma ConsiderFollows<C>(h: HubState<C>, s: Closing<C>, cfg: Config, r: RecoveryClip<C>, now: int)
    requires ValidConfig(cfg) && Follows(h, s, cfg, now) && Knows(h, r.connection)
    ensures r.connection in s.room
    ensures var (h', panicked) := Consider(h, cfg, r, now);
            !panicked ==> Follows(h', ServeOne(s, cfg, h.connections, r, Budget(cfg, now)), cfg, now)
  {
    var noted := h.(considered := h.considered + [r]);
    assert Follows(noted, s, cfg, now) && Knows(noted, r.connection);
    RoomAt(h, s, cfg, now, r.connection);
    hide Follows, ApplyClip, ServeOne, Knows;
    if h.links[r.connection].closed {
      ClosedIsSkipped(s, cfg, h.connections, r, Budget(cfg, now));
    } else {
      ApplyFollows(noted, s, cfg, r, now);
    }
  }

  lemma ClosedIsSkipped<C>(s: Closing<C>, cfg: Config, listed: seq<C>, r: RecoveryClip<C>, budget: int)
    requires r.connection in s.room && s.room[r.connection].None?
    ensures ServeOne(s, cfg, listed, r, budget) == s
  {
  }

  lemma {:induction false} DrainFollows<C>(h: HubState<C>, s: Closing<C>, cfg: Config, clips: seq<RecoveryClip<C>>, now: int)
    requires ValidConfig(cfg) && Follows(h, s, cfg, now) && AllKnown(h, clips)
    ensures forall i :: 0 <= i < |clips| ==> clips[i].connection in s.room
    ensures var (h', panicked) := Drain(h, cfg, clips, now);
            !panicked ==> Follows(h', ServeAll(s, cfg, h.connections, clips, Budget(cfg, now)), cfg, now)
    decreases |clips|
  {
    assert s.room.Keys == h.links.Keys;
    hide Follows, Consider, ServeOne;
    if clips != [] {
      var n := |clips| - 1;
      DrainFollows(h, s, cfg, clips[..n], now);
      var (front, panicked) := Drain(h, cfg, clips[..n], now);
      if !panicked {
        ConsiderFollows(front, ServeAll(s, cfg, h.connections, clips[..n], Budget(cfg, now)), cfg, clips[n], now);
      }
    }
  }

  // What the law says of a close.

  lemma OpeningFollows<C>(h: HubState<C>, cfg: Config, initialVersion: uint64, now: int)
    requires Inv(h, cfg, initialVersion) && !h.windowClosed
    ensures var r := Opening(h);
            && r.connections == h.connections && r.links == h.links
            && AllKnown(h, h.recoveryQueue) && AllKnown(r, h.recoveryQueue)
            && Follows(r, Closing([], Rooms(h.links)), cfg, now)
            && Follows(r.(version := 0), Closing([], Rooms(h.links)), cfg, now)
  {
    OpeningKeeps(h, cfg, initialVersion);
    hide Restore, RoomOf, Core, PayloadBytes, WinnerVersion, AllUpToDate;
  }

  /** The clips that ask for a version at the close are exactly the served ones. */
  lemma DemandIsServed<C>(h: HubState<C>, cfg: Config, initialVersion: uint64, now: int)
    requires ValidConfig(cfg) && Inv(h, cfg, initialVersion) && !h.windowClosed && |h.queued| <= MAX_UINT64
    ensures AllKnown(h, h.recoveryQueue) && AllKnown(Opening(h), h.recoveryQueue)
    ensures HubOverflow.Demand(h, cfg, now) == |Served(h, cfg, now)|
  {
    OpeningFollows(h, cfg, initialVersion, now);
    OpeningKeeps(h, cfg, initialVersion);
    var zero := Opening(h).(version := 0);
    assert AllKnown(zero, h.recoveryQueue);
    hide Inv, Opening, Drain, ServeAll;
    HubOverflow.ZeroDrains(zero, cfg, h.recoveryQueue, now);
    DrainFollows(zero, Closing([], Rooms(h.links)), cfg, h.recoveryQueue, now);
  }

  /** Closing ends in a welcome exactly when the served clips do not outnumber the versions left after restoring. */
  lemma WelcomesExactly<C>(h: HubState<C>, cfg: Config, initialVersion: uint64, now: int)
    requires ValidConfig(cfg) && Inv(h, cfg, initialVersion) && !h.windowClosed && |h.queued| <= MAX_UINT64
    ensures AllKnown(h, h.recoveryQueue)
    ensures CloseWindow(h, cfg, now).0.welcomed <==>
            Max(initialVersion, WinnerVersion(h.candidates)) + |Served(h, cfg, now)| <= MAX_UINT64
  {
    DemandIsServed(h, cfg, initialVersion, now);
    HubOverflow.WelcomesExactlyIfVersionsSuffice(h, cfg, initialVersion, now);
    hide *;
  }

  /** A close that welcomes issues exactly the served clips, in order; everything else in the queue is skipped,
      acknowledged as a repetition, or refused as rate limited. */
  lemma CloseIssuesTheServed<C>(h: HubState<C>, cfg: Config, initialVersion: uint64, now: int)
    requires ValidConfig(cfg) && Inv(h, cfg, initialVersion) && !h.windowClosed
    ensures AllKnown(h, h.recoveryQueue)
    ensures var (h', panicked) := CloseWindow(h, cfg, now);
            var served := Served(h, cfg, now);
            !panicked ==>
            && |h'.issued| == |h'.ring| == |served|
            && forall i :: 0 <= i < |served| ==> SameCall(h'.ring[i], served[i])
  {
    OpeningFollows(h, cfg, initialVersion, now);
    hide Inv, Restore, Drain, ServeAll, SameCall;
    DrainFollows(Opening(h), Closing([], Rooms(h.links)), cfg, h.recoveryQueue, now);
  }

  lemma {:induction false} ServedBound<C>(s: Closing<C>, cfg: Config, listed: seq<C>, clips: seq<RecoveryClip<C>>, budget: int)
    requires forall i :: 0 <= i < |clips| ==> clips[i].connection in s.room
    requires |s.taken| <= budget
    ensures var s' := ServeAll(s, cfg, listed, clips, budget);
            |s'.taken| <= |s.taken| + |clips| && |s'.taken| <= budget
    decreases |clips|
  {
    hide Repeats;
    if clips != [] { ServedBound(s, cfg, listed, clips[..|clips| - 1], budget); }
  }

  /** Never more than the burst, nor than the queue. */
  lemma ServedIsWithinTheBurst<C>(h: HubState<C>, cfg: Config, now: int)
    requires ValidConfig(cfg) && AllKnown(h, h.recoveryQueue)
    ensures |Served(h, cfg, now)| <= |h.recoveryQueue| && |Served(h, cfg, now)| <= cfg.clipBurst
  {
    ServedBound(Closing([], Rooms(h.links)), cfg, h.connections, h.recoveryQueue, Budget(cfg, now));
  }

  /** The window closes with a welcome whenever the queue, or the burst, fits into the versions that are left. */
  lemma ClosingWelcomes<C>(h: HubState<C>, cfg: Config, initialVersion: uint64, now: int)
    requires ValidConfig(cfg) && Inv(h, cfg, initialVersion) && !h.windowClosed && |h.queued| <= MAX_UINT64
    requires var base := Max(initialVersion, WinnerVersion(h.candidates));
             base + |h.queued| <= MAX_UINT64 || base + cfg.clipBurst <= MAX_UINT64
    ensures AllKnown(h, h.recoveryQueue) && CloseWindow(h, cfg, now).0.welcomed
  {
    WelcomesExactly(h, cfg, initialVersion, now);
    ServedIsWithinTheBurst(h, cfg, now);
    OpeningKeeps(h, cfg, initialVersion);
    hide *;
  }

  // The count where no sender's queue fills.

  function OpenClips<C>(clips: seq<RecoveryClip<C>>, room: map<C, Option<nat>>): seq<ClientClip>
    requires forall i :: 0 <= i < |clips| ==> clips[i].connection in room
  {
    if clips == [] then []
    else
      var n := |clips| - 1;
      OpenClips(clips[..n], room) + if room[clips[n].connection].Some? then [clips[n].clip] else []
  }

  /** The first clips, repetitions left out, up to the budget. */
  ghost function FirstClips(clips: seq<ClientClip>, capacity: int, budget: int): seq<ClientClip>
    decreases |clips|
  {
    if clips == [] then []
    else
      var n := |clips| - 1;
      var taken := FirstClips(clips[..n], capacity, budget);
      if Repeats(taken, clips[n], capacity) || |taken| >= budget then taken else taken + [clips[n]]
  }

  /** Every sender that is open has room for a frame per queued clip. */
  ghost predicate RoomForAll<C>(clips: seq<RecoveryClip<C>>, room: map<C, Option<nat>>, n: nat) {
    forall i :: 0 <= i < |clips| ==>
      clips[i].connection in room && (room[clips[i].connection].Some? ==> room[clips[i].connection].value >= n)
  }

  /** After `k` clips, nobody with room for more than `k` has been closed. */
  ghost predicate StillOpen<C>(before: map<C, Option<nat>>, after: map<C, Option<nat>>, k: nat) {
    && after.Keys == before.Keys
    && (forall c :: c in before && before[c].None? ==> after[c].None?)
    && (forall c :: c in before && before[c].Some? && before[c].value >= k ==> after[c].Some? && after[c].value + k >= before[c].value)
  }

  lemma ServeOneStillOpen<C>(before: map<C, Option<nat>>, s: Closing<C>, cfg: Config, listed: seq<C>, r: RecoveryClip<C>, budget: int, k: nat)
    requires r.connection in s.room && StillOpen(before, s.room, k)
    ensures StillOpen(before, ServeOne(s, cfg, listed, r, budget).room, k + 1)
  {
    hide Repeats;
  }

  lemma {:induction false} ServeAllIsFirstClips<C>(room: map<C, Option<nat>>, cfg: Config, listed: seq<C>, clips: seq<RecoveryClip<C>>,
                                                   budget: int, n: nat)
    requires RoomForAll(clips, room, n) && |clips| <= n
    ensures var s := ServeAll(Closing([], room), cfg, listed, clips, budget);
            && s.taken == FirstClips(OpenClips(clips, room), cfg.seenIdCapacity, budget)
            && StillOpen(room, s.room, |clips|)
    decreases |clips|
  {
    hide Repeats, StillOpen, ServeOne;
    if clips == [] {
      NothingServed(room);
    } else {
      var m := |clips| - 1;
      ServeAllIsFirstClips(room, cfg, listed, clips[..m], budget, n);
      var s := ServeAll(Closing([], room), cfg, listed, clips[..m], budget);
      var open := OpenClips(clips[..m], room);
      assert clips[m].connection in room;
      ServeOneStillOpen(room, s, cfg, listed, clips[m], budget, m);
      ServeOneTakes(room, s, cfg, listed, clips[m], budget, m);
      FirstClipsStep(open, clips[m].clip, cfg.seenIdCapacity, budget);
      assert open + [] == open;
      hide FirstClips, ServeAll;
      ServeAllStep(room, cfg, listed, clips, budget);
    }
  }

  lemma FirstClipsStep(open: seq<ClientClip>, clip: ClientClip, capacity: int, budget: int)
    ensures var taken := FirstClips(open, capacity, budget);
            FirstClips(open + [clip], capacity, budget) ==
            if Repeats(taken, clip, capacity) || |taken| >= budget then taken else taken + [clip]
  {
    hide Repeats;
    assert (open + [clip])[..|open|] == open;
  }

  lemma ServeAllStep<C>(room: map<C, Option<nat>>, cfg: Config, listed: seq<C>, clips: seq<RecoveryClip<C>>, budget: int)
    requires clips != [] && forall i :: 0 <= i < |clips| ==> clips[i].connection in room
    ensures var n := |clips| - 1;
            ServeAll(Closing([], room), cfg, listed, clips, budget) ==
            ServeOne(ServeAll(Closing([], room), cfg, listed, clips[..n], budget), cfg, listed, clips[n], budget)
  {
    hide ServeOne;
  }

  lemma NothingServed<C>(room: map<C, Option<nat>>)
    ensures StillOpen(room, room, 0)
  {
  }

  lemma ServeOneTakes<C>(room: map<C, Option<nat>>, s: Closing<C>, cfg: Config, listed: seq<C>, r: RecoveryClip<C>, budget: int, k: nat)
    requires r.connection in room && r.connection in s.room && StillOpen(room, s.room, k)
    requires room[r.connection].Some? ==> room[r.connection].value >= k
    ensures ServeOne(s, cfg, listed, r, budget).taken ==
            if room[r.connection].None? || Repeats(s.taken, r.clip, cfg.seenIdCapacity) || |s.taken| >= budget then s.taken
            else s.taken + [r.clip]
  {
    hide Repeats;
  }

  /** Where every open sender has room for a frame per queued clip, the clips of the open senders are served in order,
      repetitions left out, until the burst is used up. */
  lemma ServedWithRoom<C>(h: HubState<C>, cfg: Config, now: int)
    requires AllKnown(h, h.recoveryQueue) && RoomForAll(h.recoveryQueue, Rooms(h.links), |h.recoveryQueue|)
    ensures Served(h, cfg, now) == FirstClips(OpenClips(h.recoveryQueue, Rooms(h.links)), cfg.seenIdCapacity, Budget(cfg, now))
  {
    ServeAllIsFirstClips(Rooms(h.links), cfg, h.connections, h.recoveryQueue, Budget(cfg, now), |h.recoveryQueue|);
    hide *;
  }

  ghost predicate DistinctIds(clips: seq<ClientClip>) {
    forall i, j :: 0 <= i < j < |clips| ==> clips[i].id != clips[j].id
  }

  /** Under different ids, exactly as many as the burst allows: the rest is refused as rate limited. */
  lemma {:induction false} DistinctClipsFillTheBurst(clips: seq<ClientClip>, capacity: int, budget: nat)
    requires DistinctIds(clips)
    ensures FirstClips(clips, capacity, budget) == clips[..if |clips| <= budget then |clips| else budget]
    decreases |clips|
  {
    hide FirstClips, Repeats;
    if clips == [] {
      NoFirstClips(capacity, budget);
    } else {
      var n := |clips| - 1;
      var front := clips[..n];
      DistinctClipsFillTheBurst(front, capacity, budget);
      FirstClipsStep(front, clips[n], capacity, budget);
      assert clips == front + [clips[n]];
      var taken := FirstClips(front, capacity, budget);
      var k := if n <= budget then n else budget;
      assert taken == front[..k];
      NeverTaken(taken, clips[n], capacity);
      hide DistinctIds;
      assert front[..k] == clips[..k];
    }
  }

  lemma NoFirstClips(capacity: int, budget: int)
    ensures FirstClips([], capacity, budget) == []
  {
  }

  lemma NeverTaken(taken: seq<ClientClip>, clip: ClientClip, capacity: int)
    requires forall i :: 0 <= i < |taken| ==> taken[i].id != clip.id
    ensures !Repeats(taken, clip, capacity)
  {
    assert forall k :: 0 <= k < |taken| ==> Calls(taken)[k].id == taken[k].id;
  }
}
