/** When closing the recovery window runs out of versions (internal/hub/hub.go, internal/core/logic.go). The panic
    leaves the window closed without a welcome. */
module HubOverflow {
  import opened Base
  import opened Messages
  import opened Connections
  import opened SeenIdRing
  import opened TokenBucket
  import opened SnapshotElection
  import opened HubSpec
  import opened HubInvariants

  /** The same clip as far as the content test can tell. */
  ghost predicate SameContent(a: Option<LatestText>, b: Option<LatestText>) {
    && a.Some? == b.Some?
    && (a.Some? ==> a.value.payload == b.value.payload && a.value.hash == b.value.hash && a.value.encrypted == b.value.encrypted)
  }

  ghost predicate SameRings(a: seq<Call<Option<LatestText>>>, b: seq<Call<Option<LatestText>>>) {
    && |a| == |b|
    && forall i :: 0 <= i < |a| ==> a[i].id == b[i].id && SameContent(a[i].value, b[i].value)
  }

  ghost predicate SameRoom(a: Link, b: Link) {
    a.closed == b.closed && a.capacity == b.capacity && |a.queue| == |b.queue|
  }

  /** Two hubs that differ only in the versions they give out. */
  ghost predicate Alike<C>(h: HubState<C>, g: HubState<C>) {
    && h.connections == g.connections && h.grants == g.grants && h.lastRefill == g.lastRefill
    && SameRings(h.ring, g.ring)
    && h.links.Keys == g.links.Keys
    && (forall c :: c in h.links ==> SameRoom(h.links[c], g.links[c]))
  }

  lemma {:induction false} SameLastCall(a: seq<Call<Option<LatestText>>>, b: seq<Call<Option<LatestText>>>, id: gostring)
    requires SameRings(a, b)
    ensures LastCall(a, id) == LastCall(b, id)
    decreases |a|
  {
    hide SameContent;
    if a != [] && a[|a| - 1].id != id { SameLastCall(a[..|a| - 1], b[..|b| - 1], id); }
  }

  lemma SameRemembered<C>(h: HubState<C>, g: HubState<C>, cfg: Config, clip: ClientClip)
    requires SameRings(h.ring, g.ring)
    ensures Remembered(h, cfg, clip).Some? == Remembered(g, cfg, clip).Some?
  {
    SameLastCall(h.ring, g.ring, clip.id);
    hide LastCall;
    assert Holds(h.ring, cfg.seenIdCapacity, clip.id) == Holds(g.ring, cfg.seenIdCapacity, clip.id);
  }

  lemma SameOffer(a: Link, b: Link, d: Delivery, e: Delivery)
    requires SameRoom(a, b)
    ensures SameRoom(Offered(a, d), Offered(b, e))
  {
  }

  lemma OfferAlike<C>(h: HubState<C>, g: HubState<C>, c: C, d: Delivery, e: Delivery)
    requires Alike(h, g) && c in h.links
    ensures Alike(h.(links := OfferTo(h.links, c, d)), g.(links := OfferTo(g.links, c, e)))
  {
    hide SameRoom, Offered, SameRings;
    SameOffer(h.links[c], g.links[c], d, e);
  }

  lemma AssignAlike<C>(h: HubState<C>, g: HubState<C>, clip: ClientClip, sender: C, v: uint64, w: uint64, now: int)
    requires Alike(h, g) && Knows(h, sender)
    ensures Knows(g, sender) && Alike(Assign(h, clip, sender, v, now), Assign(g, clip, sender, w, now))
  {
    hide SameRoom, Offered;
    var a, b := TextOf(clip, v, h.links[sender], now), TextOf(clip, w, g.links[sender], now);
    forall c | c in h.links
      ensures SameRoom(Offered(h.links[c], Delivery(ClipFrame(clip.id, a), true)), Offered(g.links[c], Delivery(ClipFrame(clip.id, b), true)))
           && SameRoom(Offered(h.links[c], Delivery(AckFrame(clip.id, a), true)), Offered(g.links[c], Delivery(AckFrame(clip.id, b), true)))
    {
      SameOffer(h.links[c], g.links[c], Delivery(ClipFrame(clip.id, a), true), Delivery(ClipFrame(clip.id, b), true));
      SameOffer(h.links[c], g.links[c], Delivery(AckFrame(clip.id, a), true), Delivery(AckFrame(clip.id, b), true));
    }
  }

  /** A clip fares alike in both, until one of them runs out of versions. */
  lemma ApplyAlike<C>(h: HubState<C>, g: HubState<C>, cfg: Config, clip: ClientClip, sender: C, now: int)
    requires Alike(h, g) && Knows(h, sender) && g.version < MAX_UINT64
    ensures Knows(g, sender)
    ensures var (h', a) := ApplyClip(h, cfg, clip, sender, now);
            var (g', b) := ApplyClip(g, cfg, clip, sender, now);
            (a == b && Alike(h', g')) || (a.Overflow? && b.Fresh? && h.version == MAX_UINT64)
  {
    AlikeSees(h, g, cfg, clip, sender, now);
    hide Remembered, Granted, Alike, Knows, ApplyClip;
    if Remembered(h, cfg, clip).Some? {
      DuplicateAlike(h, g, cfg, clip, sender, now);
    } else if !Granted(h, cfg, now) {
      LimitedAlike(h, g, cfg, clip, sender, now);
    } else {
      GrantedAlike(h, g, cfg, clip, sender, now);
    }
  }

  lemma DuplicateAlike<C>(h: HubState<C>, g: HubState<C>, cfg: Config, clip: ClientClip, sender: C, now: int)
    requires Alike(h, g) && Knows(h, sender) && Knows(g, sender)
    requires Remembered(h, cfg, clip).Some? && Remembered(g, cfg, clip).Some?
    ensures ApplyClip(h, cfg, clip, sender, now).1 == ApplyClip(g, cfg, clip, sender, now).1
    ensures Alike(ApplyClip(h, cfg, clip, sender, now).0, ApplyClip(g, cfg, clip, sender, now).0)
  {
    var a, b := Remembered(h, cfg, clip).value, Remembered(g, cfg, clip).value;
    OfferAlike(h, g, sender, Delivery(AckFrame(clip.id, a), false), Delivery(AckFrame(clip.id, b), false));
    hide Remembered, Granted, Alike, OfferTo, Assign;
  }

  lemma LimitedAlike<C>(h: HubState<C>, g: HubState<C>, cfg: Config, clip: ClientClip, sender: C, now: int)
    requires Alike(h, g) && Knows(h, sender) && Knows(g, sender)
    requires Remembered(h, cfg, clip).None? && Remembered(g, cfg, clip).None? && !Granted(h, cfg, now) && !Granted(g, cfg, now)
    ensures ApplyClip(h, cfg, clip, sender, now).1 == ApplyClip(g, cfg, clip, sender, now).1
    ensures Alike(ApplyClip(h, cfg, clip, sender, now).0, ApplyClip(g, cfg, clip, sender, now).0)
  {
    var d := Delivery(RateLimitedFrame(clip.id), false);
    assert h.grants == g.grants && h.lastRefill == g.lastRefill;
    OfferAlike(h, g, sender, d, d);
    hide Remembered, Granted, Alike, OfferTo, Assign;
    ChargeAlike(h.(links := OfferTo(h.links, sender, d)), g.(links := OfferTo(g.links, sender, d)), h.grants, Max(h.lastRefill, now));
  }

  lemma GrantedAlike<C>(h: HubState<C>, g: HubState<C>, cfg: Config, clip: ClientClip, sender: C, now: int)
    requires Alike(h, g) && Knows(h, sender) && Knows(g, sender) && g.version < MAX_UINT64
    requires Remembered(h, cfg, clip).None? && Remembered(g, cfg, clip).None? && Granted(h, cfg, now) && Granted(g, cfg, now)
    ensures var (h', a) := ApplyClip(h, cfg, clip, sender, now);
            var (g', b) := ApplyClip(g, cfg, clip, sender, now);
            (a == b && Alike(h', g')) || (a.Overflow? && b.Fresh? && h.version == MAX_UINT64)
  {
    hide Remembered, Granted, Assign, Knows, ApplyClip, SameRings, SameRoom;
    GrantedIs(h, cfg, clip, sender, now);
    GrantedIs(g, cfg, clip, sender, now);
    assert Charged(h, now).lastRefill == Charged(g, now).lastRefill && Charged(h, now).grants == Charged(g, now).grants;
    ChargeAlike(h, g, h.grants + [now], Charged(h, now).lastRefill);
    hide Alike;
    if h.version < MAX_UINT64 {
      AssignAlike(Charged(h, now), Charged(g, now), clip, sender, h.version + 1, g.version + 1, now);
    }
  }

  lemma GrantedIs<C>(h: HubState<C>, cfg: Config, clip: ClientClip, sender: C, now: int)
    requires Knows(h, sender) && Remembered(h, cfg, clip).None? && Granted(h, cfg, now)
    ensures Knows(Charged(h, now), sender)
    ensures ApplyClip(h, cfg, clip, sender, now) ==
            if h.version == MAX_UINT64 then (Charged(h, now), Overflow)
            else (Assign(Charged(h, now), clip, sender, h.version + 1, now), Fresh)
  {
    hide Remembered, Granted, Assign;
  }

  lemma AlikeSees<C>(h: HubState<C>, g: HubState<C>, cfg: Config, clip: ClientClip, sender: C, now: int)
    requires Alike(h, g) && Knows(h, sender)
    ensures Knows(g, sender) && sender in h.links && h.grants == g.grants && h.lastRefill == g.lastRefill
    ensures Remembered(h, cfg, clip).Some? == Remembered(g, cfg, clip).Some?
    ensures Granted(h, cfg, now) == Granted(g, cfg, now)
  {
    SameRemembered(h, g, cfg, clip);
    hide Remembered, Affordable, SameRings, SameRoom;
  }

  lemma ChargeAlike<C>(h: HubState<C>, g: HubState<C>, grants: seq<int>, last: int)
    requires Alike(h, g)
    ensures Alike(h.(grants := grants, lastRefill := last), g.(grants := grants, lastRefill := last))
  {
    hide SameRings, SameRoom;
  }

  /** Draining both: either they fare alike, or the first panics and the second goes on to issue more texts than
      the first had versions for. */
  lemma {:induction false} DrainAlike<C>(h: HubState<C>, g: HubState<C>, cfg: Config, clips: seq<RecoveryClip<C>>, now: int)
    requires Alike(h, g) && AllKnown(h, clips) && AllKnown(g, clips)
    requires g.version + |clips| <= MAX_UINT64
    ensures var (h', p) := Drain(h, cfg, clips, now);
            var (g', q) := Drain(g, cfg, clips, now);
            && !q && g'.version <= g.version + |clips|
            && |g'.issued| >= |g.issued|
            && (!p ==> Alike(h', g') && |h'.issued| - |h.issued| == |g'.issued| - |g.issued| == h'.version - h.version)
            && (p ==> |g'.issued| - |g.issued| > MAX_UINT64 - h.version)
    decreases |clips|
  {
    hide Alike, Consider;
    if clips != [] {
      var n := |clips| - 1;
      DrainAlike(h, g, cfg, clips[..n], now);
      var (h1, p1) := Drain(h, cfg, clips[..n], now);
      var (g1, q1) := Drain(g, cfg, clips[..n], now);
      ConsiderCounts(g1, cfg, clips[n], now);
      if !p1 { ConsiderAlike(h1, g1, cfg, clips[n], now); }
    }
  }

  lemma ConsiderCounts<C>(g: HubState<C>, cfg: Config, r: RecoveryClip<C>, now: int)
    requires Knows(g, r.connection) && g.version < MAX_UINT64
    ensures var (g', q) := Consider(g, cfg, r, now);
            && !q && 0 <= g'.version - g.version == |g'.issued| - |g.issued| <= 1
  {
    hide Remembered, Granted, Broadcast, OfferTo;
  }

  lemma ConsiderAlike<C>(h: HubState<C>, g: HubState<C>, cfg: Config, r: RecoveryClip<C>, now: int)
    requires Alike(h, g) && Knows(h, r.connection) && Knows(g, r.connection) && g.version < MAX_UINT64
    ensures var (h', p) := Consider(h, cfg, r, now);
            var (g', q) := Consider(g, cfg, r, now);
            && (!p ==> Alike(h', g') && |h'.issued| - |h.issued| == |g'.issued| - |g.issued| == h'.version - h.version)
            && (p ==> h.version == MAX_UINT64 && |g'.issued| == |g.issued| + 1)
  {
    var h1, g1 := h.(considered := h.considered + [r]), g.(considered := g.considered + [r]);
    assert Alike(h1, g1) && SameRoom(h.links[r.connection], g.links[r.connection]);
    hide Alike, ApplyClip;
    if !h.links[r.connection].closed {
      ApplyAlike(h1, g1, cfg, r.clip, r.connection, now);
      ApplyCounts(h1, cfg, r.clip, r.connection, now);
      ApplyCounts(g1, cfg, r.clip, r.connection, now);
    }
  }

  /** How many of the queued clips ask for a version: those a hub with versions to spare would give one. */
  ghost function Demand<C>(h: HubState<C>, cfg: Config, now: int): nat
    requires AllKnown(Opening(h), h.recoveryQueue)
  {
    |Drain(Opening(h).(version := 0), cfg, h.recoveryQueue, now).0.issued|
  }

  /** Closing the window welcomes everyone exactly when the clips that ask for a version do not outnumber the
      versions left after restoring. */
  lemma WelcomesExactlyIfVersionsSuffice<C>(h: HubState<C>, cfg: Config, initialVersion: uint64, now: int)
    requires Inv(h, cfg, initialVersion) && !h.windowClosed && |h.queued| <= MAX_UINT64
    ensures AllKnown(h, h.recoveryQueue) && AllKnown(Opening(h), h.recoveryQueue)
    ensures CloseWindow(h, cfg, now).0.welcomed <==>
            Max(initialVersion, WinnerVersion(h.candidates)) + Demand(h, cfg, now) <= MAX_UINT64
  {
    OpeningKeeps(h, cfg, initialVersion);
    CloseKeeps(h, cfg, initialVersion, now);
    hide Inv, Restore, Drain, WinnerVersion;
    var r := Opening(h);
    var zero := r.(version := 0);
    assert Alike(r, zero) by { SelfAlike(r, zero); }
    assert AllKnown(zero, h.recoveryQueue);
    hide AllKnown, Alike, Opening;
    DrainAlike(r, zero, cfg, h.recoveryQueue, now);
  }

  /** A hub with versions to spare drains without a panic. */
  lemma ZeroDrains<C>(h: HubState<C>, cfg: Config, clips: seq<RecoveryClip<C>>, now: int)
    requires AllKnown(h, clips) && h.version + |clips| <= MAX_UINT64
    ensures !Drain(h, cfg, clips, now).1
  {
    SelfAlike(h, h);
    DrainAlike(h, h, cfg, clips, now);
  }

  lemma SelfAlike<C>(h: HubState<C>, g: HubState<C>)
    requires g.connections == h.connections && g.grants == h.grants && g.lastRefill == h.lastRefill && g.ring == h.ring && g.links == h.links
    ensures Alike(h, g)
  {
  }

  /** A hub without a version left, with one connection and its one queued clip. */
  ghost function LastVersionHub(cfg: Config, clip: ClientClip, link: Link): HubState<int> {
    NewHub(cfg, MAX_UINT64, map[0 := link]).(connections := [0], joinedAt := map[0 := 0],
      recoveryQueue := [RecoveryClip(clip, 0)], queued := [RecoveryClip(clip, 0)])
  }

  lemma LastVersionHubIsFine(cfg: Config, clip: ClientClip, link: Link)
    requires ValidConfig(cfg) && link.log == [] && link.queue == [] && link.sent == []
    ensures Inv(LastVersionHub(cfg, clip, link), cfg, MAX_UINT64)
  {
    assert InOrder(link);
  }

  /** With no version left, one queued clip of an open connection is enough: the window closes and the connection
      has no welcome, nor any other frame. */
  lemma LastVersionSkipsTheWelcome(cfg: Config, clip: ClientClip, link: Link, now: int)
    requires ValidConfig(cfg) && cfg.processStart <= now
    requires !link.closed && link.log == [] && link.queue == [] && link.sent == []
    ensures var h := LastVersionHub(cfg, clip, link);
            && Inv(h, cfg, MAX_UINT64) && AllKnown(h, h.recoveryQueue)
            && var (h', panicked) := CloseWindow(h, cfg, now);
            && panicked && h'.windowClosed && !h'.welcomed && 0 in h'.connections && h'.links[0] == link
  {
    hide Inv, Opening, Drain, Consider;
    LastVersionHubIsFine(cfg, clip, link);
    var h := LastVersionHub(cfg, clip, link);
    var o := h.(windowClosed := true, recoveryQueue := []);
    LastVersionOpens(cfg, clip, link);
    DrainOne(o, cfg, h.recoveryQueue, now);
    LastVersionPanics(o, cfg, RecoveryClip(clip, 0), now);
  }

  lemma LastVersionOpens(cfg: Config, clip: ClientClip, link: Link)
    ensures var h := LastVersionHub(cfg, clip, link); Opening(h) == h.(windowClosed := true, recoveryQueue := [])
  {
    NoCandidates();
  }

  lemma NoCandidates()
    ensures Elect([]).None?
  {
  }

  lemma DrainOne<C>(h: HubState<C>, cfg: Config, clips: seq<RecoveryClip<C>>, now: int)
    requires |clips| == 1 && AllKnown(h, clips)
    ensures Knows(h, clips[0].connection) && Drain(h, cfg, clips, now) == Consider(h, cfg, clips[0], now)
  {
    hide Consider;
    assert clips[..0] == [];
    assert Drain(h, cfg, [], now) == (h, false);
  }

  /** A granted clip of an open connection panics when there is no version left, and sends nothing. */
  lemma LastVersionPanics<C>(h: HubState<C>, cfg: Config, r: RecoveryClip<C>, now: int)
    requires ValidConfig(cfg) && h.lastRefill == cfg.processStart <= now && Knows(h, r.connection) && !h.links[r.connection].closed
    requires h.version == MAX_UINT64 && h.grants == [] && h.ring == []
    ensures var (h', panicked) := Consider(h, cfg, r, now);
            panicked && h' == h.(considered := h.considered + [r], grants := [now], lastRefill := now)
  {
    EarnedIsPositive(cfg, now);
    assert LastCall(h.ring, r.clip.id) == -1;
    hide Affordable, LastCall, Assign;
  }

  lemma EarnedIsPositive(cfg: Config, now: int)
    requires ValidConfig(cfg) && cfg.processStart <= now
    ensures Affordable(cfg.clipBurst, cfg.clipRate, cfg.processStart, [], now)
  {
    forall instant | cfg.processStart <= instant <= now
      ensures (Since([], instant) + 1) as real <= cfg.clipBurst as real + Earned(cfg.clipRate, instant, now) {
      EarnedGrows(cfg.clipRate, instant, now, now);
    }
  }
}
