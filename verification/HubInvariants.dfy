/** What every operation of a hub keeps (internal/hub/hub.go). */
module HubInvariants {
  import opened Base
  import opened Messages
  import opened Connections
  import opened SeenIdRing
  import opened TokenBucket
  import opened SnapshotElection
  import opened HubSpec

  // One connection.

  /** An open connection was told exactly these texts, in order. */
  ghost predicate Told(l: Link, texts: seq<LatestText>) {
    l.closed || FreshTexts(l.log) == texts
  }

  /** A client behind an open connection, following its frames, ends up with the hub's text. */
  ghost predicate UpToDate(l: Link, latest: Option<LatestText>) {
    l.closed || Believed(l.log) == Some(latest)
  }

  lemma QuietOffer(l: Link, d: Delivery, texts: seq<LatestText>, latest: Option<LatestText>)
    requires FreshIn(d) == [] && !d.frame.Welcome?
    ensures Told(l, texts) ==> Told(Offered(l, d), texts)
    ensures UpToDate(l, latest) ==> UpToDate(Offered(l, d), latest)
  {
    LogStep(l.log, d);
  }

  lemma FreshOffer(l: Link, d: Delivery, texts: seq<LatestText>, text: LatestText)
    requires FreshIn(d) == [text] && !d.frame.Welcome?
    ensures Told(l, texts) ==> Told(Offered(l, d), texts + [text])
    ensures UpToDate(Offered(l, d), Some(text))
  {
    LogStep(l.log, d);
  }

  lemma WelcomeOffer(l: Link, texts: seq<LatestText>, latest: Option<LatestText>)
    ensures Told(l, texts) ==> Told(Offered(l, Delivery(Welcome(latest), false)), texts)
    ensures UpToDate(Offered(l, Delivery(Welcome(latest), false)), latest)
  {
    LogStep(l.log, Delivery(Welcome(latest), false));
  }

  // The invariant, in parts.

  ghost predicate Distinct<C>(cs: seq<C>) {
    forall i, j :: 0 <= i < j < |cs| ==> cs[i] != cs[j]
  }

  lemma {:induction false} WithoutKeeps<C>(cs: seq<C>, c: C)
    requires Distinct(cs)
    ensures Distinct(Without(cs, c)) && c !in Without(cs, c)
    ensures forall x :: x in cs && x != c ==> x in Without(cs, c)
    decreases |cs|
  {
    if cs != [] {
      var tail := cs[1..];
      forall x | x in tail ensures x != cs[0] {
        var i :| 0 <= i < |tail| && tail[i] == x;
        assert cs[i + 1] == x;
      }
      assert cs == [cs[0]] + tail;
      if cs[0] != c {
        WithoutKeeps(tail, c);
        var rest := Without(tail, c);
        assert forall j :: 0 <= j < |rest| ==> rest[j] in rest;
      }
    }
  }

  /** The list has no repetition, every listed connection is known, and all queues are in order. */
  ghost predicate Listed<C>(h: HubState<C>) {
    && Distinct(h.connections)
    && (forall c :: c in h.connections ==> c in h.links && c in h.joinedAt && h.joinedAt[c] <= |h.issued|)
    && (forall c :: c in h.links ==> InOrder(h.links[c]))
    && AllKnown(h, h.recoveryQueue)
    && (forall i :: 0 <= i < |h.jobs| ==> ConnectionOf(h.jobs[i]) in h.links)
  }

  /** Versions are given out one by one; the store and the latest text always carry the current one. */
  ghost predicate Numbered<C>(h: HubState<C>) {
    && |h.issued| <= h.version && h.stored == h.version
    && (h.latest.Some? ==> h.latest.value.version == h.version)
    && (h.issued != [] ==> h.latest == Some(h.issued[|h.issued| - 1]))
    && (forall i :: 0 <= i < |h.issued| ==> h.issued[i].version == h.version - |h.issued| + 1 + i)
  }

  /** The ring remembers exactly the issued texts, and the bucket paid for each at its time. Only a version
      overflow takes a token for nothing. */
  ghost predicate Recorded<C>(h: HubState<C>, cfg: Config) {
    && |h.ring| == |h.issued| <= |h.grants|
    && (forall i :: 0 <= i < |h.issued| ==> h.ring[i].value == Some(h.issued[i]) && h.grants[i] == h.issued[i].updatedAtUtc)
    && (|h.issued| < |h.grants| ==> h.version == MAX_UINT64)
    && cfg.processStart <= h.lastRefill
    && (forall i :: 0 <= i < |h.grants| ==> cfg.processStart <= h.grants[i] <= h.lastRefill)
    && Paced(cfg.clipBurst, cfg.clipRate, h.grants)
  }

  /** Every open listed connection was told every text issued since it joined. */
  ghost predicate Complete<C>(h: HubState<C>) {
    forall c :: c in h.connections && c in h.links && c in h.joinedAt && h.joinedAt[c] <= |h.issued| ==>
      Told(h.links[c], h.issued[h.joinedAt[c]..])
  }

  ghost predicate AllUpToDate<C>(h: HubState<C>) {
    forall c :: c in h.connections && c in h.links ==> UpToDate(h.links[c], h.latest)
  }

  /** What holds at all times, also while the queue is being drained. */
  ghost predicate Core<C>(h: HubState<C>, cfg: Config) {
    Listed(h) && Numbered(h) && Recorded(h, cfg) && Complete(h)
  }

  function PayloadBytes(hellos: seq<ClientHello>): nat {
    if hellos == [] then 0
    else PayloadBytes(hellos[..|hellos| - 1])
         + if hellos[|hellos| - 1].snapshot.Some? then |hellos[|hellos| - 1].snapshot.value.payload| else 0
  }

  /** The winner's version, or zero. */
  ghost function WinnerVersion(hellos: seq<ClientHello>): uint64 {
    if Elect(hellos).Some? then Elect(hellos).value.version else 0
  }

  /** While the window is open nothing is restored, assigned or processed; afterwards the queue is empty for good. */
  ghost predicate Recovering<C>(h: HubState<C>, cfg: Config, initialVersion: uint64) {
    && |h.queued| <= cfg.recoveryCapacity
    && h.snapshotBytes == PayloadBytes(h.candidates) <= cfg.snapshotTotalBytes
    && (!h.windowClosed ==>
        && h.version == initialVersion && h.latest.None? && h.issued == [] && h.grants == [] && h.ring == []
        && h.recoveryQueue == h.queued && h.considered == [] && !h.welcomed && h.lastRefill == cfg.processStart
        && (forall i :: 0 <= i < |h.jobs| ==> !h.jobs[i].ClipJob?)
        && (forall c :: c in h.connections && c in h.joinedAt ==> h.joinedAt[c] == 0))
    && (h.windowClosed ==>
        && h.recoveryQueue == [] && h.considered <= h.queued && (h.welcomed ==> h.considered == h.queued)
        && h.version - |h.issued| == Max(initialVersion, WinnerVersion(h.candidates)))
  }

  ghost predicate Inv<C>(h: HubState<C>, cfg: Config, initialVersion: uint64) {
    && Core(h, cfg)
    && Recovering(h, cfg, initialVersion)
    && (h.welcomed ==> AllUpToDate(h))
    && initialVersion <= h.version
  }

  lemma NewHubIsFine<C>(cfg: Config, initialVersion: uint64, links: map<C, Link>)
    requires ValidConfig(cfg) && forall c :: c in links ==> InOrder(links[c])
    ensures Inv(NewHub(cfg, initialVersion, links), cfg, initialVersion)
  {
  }

  // Applying a clip.

  lemma QuietKeeps<C>(h: HubState<C>, cfg: Config, c: C, d: Delivery)
    requires Core(h, cfg) && c in h.links && FreshIn(d) == [] && !d.frame.Welcome?
    ensures var h' := h.(links := OfferTo(h.links, c, d));
            Core(h', cfg) && (AllUpToDate(h) ==> AllUpToDate(h'))
  {
    hide FreshIn, Told, UpToDate, InOrder, Offered, Numbered, Recorded;
    var h' := h.(links := OfferTo(h.links, c, d));
    NumberedOnly(h, h');
    RecordedOnly(h, h', cfg);
    OfferedInOrder(h.links[c], d);
    forall texts ensures Told(h.links[c], texts) ==> Told(h'.links[c], texts) {
      QuietOffer(h.links[c], d, texts, None);
    }
    QuietOffer(h.links[c], d, [], h.latest);
  }

  lemma NumberedOnly<C>(h: HubState<C>, h': HubState<C>)
    requires Numbered(h) && h'.version == h.version && h'.latest == h.latest && h'.stored == h.stored && h'.issued == h.issued
    ensures Numbered(h')
  {
  }

  lemma RecordedOnly<C>(h: HubState<C>, h': HubState<C>, cfg: Config)
    requires Recorded(h, cfg)
    requires h'.version == h.version && h'.issued == h.issued && h'.ring == h.ring && h'.grants == h.grants && h'.lastRefill == h.lastRefill
    ensures Recorded(h', cfg)
  {
  }

  /** The links after a text is announced: every listed connection was told it once. */
  lemma AssignLinks<C>(h: HubState<C>, cfg: Config, clip: ClientClip, sender: C, version: uint64, now: int)
    requires Core(h, cfg) && sender in h.links
    ensures var h' := Assign(h, clip, sender, version, now);
            Listed(h') && Complete(h') && AllUpToDate(h')
  {
    hide FreshIn, Told, UpToDate, InOrder, Offered, Numbered, Recorded;
    var h' := Assign(h, clip, sender, version, now);
    var text := TextOf(clip, version, h.links[sender], now);
    var clipFrame, ack := Delivery(ClipFrame(clip.id, text), true), Delivery(AckFrame(clip.id, text), true);
    assert FreshIn(clipFrame) == [text] == FreshIn(ack) by { TextIsFresh(clip.id, text); }
    forall c | c in h.links ensures InOrder(h'.links[c]) {
      OfferedInOrder(h.links[c], clipFrame);
      OfferedInOrder(h.links[c], ack);
    }
    forall c | c in h.connections ensures Told(h'.links[c], h'.issued[h'.joinedAt[c]..]) && UpToDate(h'.links[c], h'.latest) {
      var texts := h.issued[h.joinedAt[c]..];
      assert h'.issued[h'.joinedAt[c]..] == texts + [text];
      FreshOffer(h.links[c], if c == sender then ack else clipFrame, texts, text);
    }
  }

  lemma TextIsFresh(id: gostring, text: LatestText)
    ensures FreshIn(Delivery(ClipFrame(id, text), true)) == [text] == FreshIn(Delivery(AckFrame(id, text), true))
  {
  }

  lemma GrantKeeps<C>(h: HubState<C>, cfg: Config, now: int)
    requires Recorded(h, cfg) && Granted(h, cfg, now)
    ensures Paced(cfg.clipBurst, cfg.clipRate, h.grants + [now])
  {
    PacedStep(cfg.clipBurst, cfg.clipRate, cfg.processStart, h.grants, now);
  }

  lemma AssignRecords<C>(h: HubState<C>, cfg: Config, clip: ClientClip, sender: C, now: int)
    requires Knows(h, sender) && Knows(Charged(h, now), sender)
    requires Numbered(h) && Recorded(h, cfg) && Granted(h, cfg, now) && h.version < MAX_UINT64
    ensures var h' := Assign(Charged(h, now), clip, sender, h.version + 1, now);
            Numbered(h') && Recorded(h', cfg)
  {
    hide Paced, Broadcast, Affordable, OfferTo;
    GrantKeeps(h, cfg, now);
  }

  /** Whatever becomes of a clip, the invariant stays; a fresh one tells every open listed connection. */
  lemma ApplyKeeps<C>(h: HubState<C>, cfg: Config, clip: ClientClip, sender: C, now: int)
    requires Core(h, cfg) && sender in h.links
    ensures var (h', outcome) := ApplyClip(h, cfg, clip, sender, now);
            && Core(h', cfg)
            && (AllUpToDate(h) || outcome.Fresh? ==> AllUpToDate(h'))
            && (outcome.Overflow? ==> h.version == MAX_UINT64)
  {
    hide Core, Remembered, Granted, Assign;
    var duplicate := Remembered(h, cfg, clip);
    if duplicate.Some? {
      QuietKeeps(h, cfg, sender, Delivery(AckFrame(clip.id, duplicate.value), false));
    } else if !Granted(h, cfg, now) {
      QuietKeeps(h, cfg, sender, Delivery(RateLimitedFrame(clip.id), false));
      RefillKeeps(h.(links := OfferTo(h.links, sender, Delivery(RateLimitedFrame(clip.id), false))), cfg, now);
    } else if h.version == MAX_UINT64 {
      OverflowKeeps(h, cfg, now);
    } else {
      FreshKeeps(h, cfg, clip, sender, now);
    }
  }

  lemma RefillKeeps<C>(h: HubState<C>, cfg: Config, now: int)
    requires Core(h, cfg)
    ensures var h' := h.(lastRefill := Max(h.lastRefill, now));
            Core(h', cfg) && (AllUpToDate(h) ==> AllUpToDate(h'))
  {
    hide Paced, Told, InOrder;
  }

  lemma OverflowKeeps<C>(h: HubState<C>, cfg: Config, now: int)
    requires Core(h, cfg) && Granted(h, cfg, now) && h.version == MAX_UINT64
    ensures var h' := Charged(h, now);
            Core(h', cfg) && (AllUpToDate(h) ==> AllUpToDate(h'))
  {
    hide Paced, Told, InOrder, Affordable;
    GrantKeeps(h, cfg, now);
  }

  lemma FreshKeeps<C>(h: HubState<C>, cfg: Config, clip: ClientClip, sender: C, now: int)
    requires Core(h, cfg) && sender in h.links && Granted(h, cfg, now) && h.version < MAX_UINT64
    ensures Knows(h, sender) && Knows(Charged(h, now), sender)
    ensures var h' := Assign(Charged(h, now), clip, sender, h.version + 1, now);
            Core(h', cfg) && AllUpToDate(h')
  {
    hide Assign, Charged, Granted, Numbered, Recorded, Listed, Complete, AllUpToDate, Knows;
    ListedKnows(h, sender);
    ChargedKnows(h, sender, now);
    AssignRecords(h, cfg, clip, sender, now);
    AssignLinks(h, cfg, clip, sender, h.version + 1, now);
    AssignCommutes(h, clip, sender, h.version + 1, now);
    SameLinks(Assign(h, clip, sender, h.version + 1, now), Assign(Charged(h, now), clip, sender, h.version + 1, now));
  }

  lemma ListedKnows<C>(h: HubState<C>, c: C)
    requires Listed(h) && c in h.links
    ensures Knows(h, c)
  {
  }

  lemma ChargedKnows<C>(h: HubState<C>, c: C, now: int)
    requires Knows(h, c)
    ensures Knows(Charged(h, now), c)
  {
  }

  /** Taking the token first or last makes no difference to what a fresh clip changes. */
  lemma AssignCommutes<C>(h: HubState<C>, clip: ClientClip, sender: C, version: uint64, now: int)
    requires Knows(h, sender) && Knows(Charged(h, now), sender)
    ensures var a, b := Assign(h, clip, sender, version, now), Assign(Charged(h, now), clip, sender, version, now);
            b == a.(grants := b.grants, lastRefill := b.lastRefill)
  {
    hide Broadcast, OfferTo, TextOf;
  }

  lemma SameLinks<C>(h: HubState<C>, h': HubState<C>)
    requires Listed(h) && Complete(h) && AllUpToDate(h)
    requires h'.links == h.links && h'.connections == h.connections && h'.joinedAt == h.joinedAt && h'.issued == h.issued
    requires h'.latest == h.latest && h'.recoveryQueue == h.recoveryQueue && h'.jobs == h.jobs
    ensures Listed(h') && Complete(h') && AllUpToDate(h')
  {
    hide Told, InOrder, UpToDate;
  }

  // Closing the recovery window.

  /** What considering queued clips leaves alone. */
  ghost predicate SameApartFromClips<C>(h: HubState<C>, h': HubState<C>) {
    && h'.connections == h.connections && h'.links.Keys == h.links.Keys && h'.joinedAt == h.joinedAt
    && h'.candidates == h.candidates && h'.snapshotBytes == h.snapshotBytes
    && h'.recoveryQueue == h.recoveryQueue && h'.windowClosed == h.windowClosed && h'.jobs == h.jobs
    && h'.queued == h.queued && h'.welcomed == h.welcomed
  }

  /** One version per issued text, and issued texts are never taken back. */
  ghost predicate OnePerText<C>(h: HubState<C>, h': HubState<C>) {
    && h.issued <= h'.issued
    && h'.version - h.version == |h'.issued| - |h.issued|
  }

  lemma ApplyCounts<C>(h: HubState<C>, cfg: Config, clip: ClientClip, sender: C, now: int)
    requires Knows(h, sender)
    ensures var (h', outcome) := ApplyClip(h, cfg, clip, sender, now);
            && SameApartFromClips(h, h') && OnePerText(h, h') && h'.considered == h.considered
            && |h'.issued| == |h.issued| + if outcome.Fresh? then 1 else 0
  {
    hide Remembered, Granted, Broadcast;
  }

  lemma ConsiderKeeps<C>(h: HubState<C>, cfg: Config, r: RecoveryClip<C>, now: int)
    requires Core(h, cfg) && r.connection in h.links
    ensures var (h', panicked) := Consider(h, cfg, r, now);
            && Core(h', cfg) && SameApartFromClips(h, h') && OnePerText(h, h')
            && h'.considered == h.considered + [r]
            && (panicked ==> h'.version == MAX_UINT64)
            && |h'.issued| <= |h.issued| + if panicked then 0 else 1
  {
    assert Knows(h, r.connection);
    hide ApplyClip;
    var noted := h.(considered := h.considered + [r]);
    NotedKeeps(h, cfg, noted);
    hide Core, Knows;
    if !h.links[r.connection].closed {
      ApplyKeeps(noted, cfg, r.clip, r.connection, now);
      ApplyCounts(noted, cfg, r.clip, r.connection, now);
    }
  }

  lemma NotedKeeps<C>(h: HubState<C>, cfg: Config, noted: HubState<C>)
    requires Core(h, cfg) && noted == h.(considered := noted.considered)
    ensures Core(noted, cfg)
  {
    hide Told, InOrder, Paced;
  }

  /** Draining considers the queued clips in order, each once, until it is through or the versions run out. */
  lemma {:induction false} DrainKeeps<C>(h: HubState<C>, cfg: Config, clips: seq<RecoveryClip<C>>, now: int)
    requires Core(h, cfg) && AllKnown(h, clips)
    ensures var (h', panicked) := Drain(h, cfg, clips, now);
            && Core(h', cfg) && SameApartFromClips(h, h') && OnePerText(h, h')
            && h.considered <= h'.considered <= h.considered + clips
            && (!panicked ==> h'.considered == h.considered + clips)
            && (panicked ==> h'.version == MAX_UINT64 && clips != [])
            && |h'.issued| <= |h.issued| + |clips| - if panicked then 1 else 0
    decreases |clips|
  {
    hide Core, Consider;
    if clips != [] {
      var n := |clips| - 1;
      DrainKeeps(h, cfg, clips[..n], now);
      var (front, panicked) := Drain(h, cfg, clips[..n], now);
      assert clips == clips[..n] + [clips[n]];
      assert h.considered + clips == h.considered + clips[..n] + [clips[n]];
      if !panicked { ConsiderKeeps(front, cfg, clips[n], now); }
    }
  }

  /** Recovery reaches the greater of the stored and the elected version, and brings the elected text back
      exactly when its version is not behind. */
  lemma RestoreIs<C>(h: HubState<C>, cfg: Config, initialVersion: uint64)
    requires Inv(h, cfg, initialVersion) && !h.windowClosed
    ensures var r := Restore(h);
            && r.version == Max(initialVersion, WinnerVersion(h.candidates)) == r.stored
            && (r.latest.Some? <==> Elect(h.candidates).Some? && Elect(h.candidates).value.version >= initialVersion)
            && (r.latest.Some? ==> var w := Elect(h.candidates).value;
                r.latest.value == LatestFromSnapshot(w.snapshot, w.version, w.clientId, w.clientName))
            && Core(r, cfg)
            && r == h.(version := r.version, latest := r.latest, stored := r.stored)
  {
    hide Elect, Told, InOrder, Paced;
  }

  lemma WelcomeKeeps<C>(h: HubState<C>, cfg: Config)
    requires Core(h, cfg)
    ensures Core(WelcomeAll(h), cfg) && AllUpToDate(WelcomeAll(h))
  {
    hide Told, UpToDate, InOrder, Offered, Numbered, Recorded;
    var h' := WelcomeAll(h);
    NumberedOnly(h, h');
    RecordedOnly(h, h', cfg);
    forall c | c in h.links ensures InOrder(h'.links[c]) {
      OfferedInOrder(h.links[c], Delivery(Welcome(h.latest), false));
    }
    forall c | c in h.connections ensures Told(h'.links[c], h'.issued[h'.joinedAt[c]..]) && UpToDate(h'.links[c], h'.latest) {
      WelcomeOffer(h.links[c], h.issued[h.joinedAt[c]..], h.latest);
    }
  }

  /** Closing: the version becomes the restored one plus one for each drained clip that was accepted, the queue
      is considered in order, and unless the versions ran out everyone is welcomed. */
  lemma CloseKeeps<C>(h: HubState<C>, cfg: Config, initialVersion: uint64, now: int)
    requires Inv(h, cfg, initialVersion)
    ensures var (h', panicked) := CloseWindow(h, cfg, now);
            && Inv(h', cfg, initialVersion) && h'.windowClosed
            && (h.windowClosed ==> h' == h && !panicked)
            && (!h.windowClosed ==>
                && h'.version == Max(initialVersion, WinnerVersion(h.candidates)) + |h'.issued|
                && (h'.issued == [] ==> h'.latest == Restore(h).latest)
                && h'.welcomed == !panicked && h'.queued == h.queued
                && h'.connections == h.connections && h'.joinedAt == h.joinedAt && h'.jobs == h.jobs
                && h'.links.Keys == h.links.Keys
                && (panicked ==> h'.version == MAX_UINT64 && |h'.issued| < |h.queued|))
  {
    if !h.windowClosed {
      hide Core, Restore, Drain, Inv, Elect, Max, Numbered, Recorded, Listed;
      CloseSteps(h, cfg, initialVersion, now);
      var (drained, panicked) := Drain(Opening(h), cfg, h.recoveryQueue, now);
      FinishClose(h, drained, panicked, cfg, initialVersion);
    }
  }

  lemma CloseSteps<C>(h: HubState<C>, cfg: Config, initialVersion: uint64, now: int)
    requires Inv(h, cfg, initialVersion) && !h.windowClosed
    ensures AllKnown(h, h.recoveryQueue) && AllKnown(Opening(h), h.recoveryQueue)
    ensures var (drained, panicked) := Drain(Opening(h), cfg, h.recoveryQueue, now);
            && Core(drained, cfg) && SameApartFromClips(Opening(h), drained) && !drained.welcomed
            && drained.considered <= h.queued && (!panicked ==> drained.considered == h.queued)
            && drained.version == Max(initialVersion, WinnerVersion(h.candidates)) + |drained.issued|
            && (drained.issued == [] ==> drained.latest == Restore(h).latest)
            && (panicked ==> drained.version == MAX_UINT64 && |drained.issued| < |h.queued|)
            && drained.queued == h.queued && drained.candidates == h.candidates && drained.snapshotBytes == h.snapshotBytes
            && drained.connections == h.connections && drained.joinedAt == h.joinedAt && drained.jobs == h.jobs
            && drained.links.Keys == h.links.Keys
  {
    hide Core, Drain, Inv, AllKnown, WinnerVersion, Max;
    OpeningKeeps(h, cfg, initialVersion);
    hide Restore;
    DrainKeeps(Opening(h), cfg, h.recoveryQueue, now);
    LatestWithoutTexts(Opening(h), cfg, h.recoveryQueue, now);
    assert [] + h.queued == h.queued;
  }

  /** The hub at the moment its window is marked closed. */
  ghost function Opening<C>(h: HubState<C>): HubState<C> {
    Restore(h).(windowClosed := true, recoveryQueue := [])
  }

  lemma OpeningKeeps<C>(h: HubState<C>, cfg: Config, initialVersion: uint64)
    requires Inv(h, cfg, initialVersion) && !h.windowClosed
    ensures var r := Opening(h);
            && Core(r, cfg) && AllKnown(r, h.recoveryQueue) && AllKnown(h, h.recoveryQueue)
            && r.version == Max(initialVersion, WinnerVersion(h.candidates))
            && r.issued == [] && r.considered == [] && h.recoveryQueue == h.queued && !r.welcomed
            && r == h.(version := r.version, latest := Restore(h).latest, stored := r.stored, windowClosed := true, recoveryQueue := [])
  {
    RestoreIs(h, cfg, initialVersion);
    SameCore(Restore(h), Opening(h), cfg);
    hide Restore, Told, InOrder, Paced;
  }

  lemma FinishClose<C>(h: HubState<C>, drained: HubState<C>, panicked: bool, cfg: Config, initialVersion: uint64)
    requires Inv(h, cfg, initialVersion) && !h.windowClosed
    requires Core(drained, cfg) && initialVersion <= drained.version
    requires drained.windowClosed && drained.recoveryQueue == [] && !drained.welcomed && drained.queued == h.queued
    requires drained.candidates == h.candidates && drained.snapshotBytes == h.snapshotBytes
    requires drained.considered <= h.queued && (!panicked ==> drained.considered == h.queued)
    requires drained.version - |drained.issued| == Max(initialVersion, WinnerVersion(h.candidates))
    ensures Inv(if panicked then drained else WelcomeAll(drained), cfg, initialVersion)
  {
    WelcomeKeeps(drained, cfg);
    hide Core, AllUpToDate, Broadcast, Elect;
  }

  lemma SameCore<C>(h: HubState<C>, h': HubState<C>, cfg: Config)
    requires Core(h, cfg) && h' == h.(windowClosed := h'.windowClosed, recoveryQueue := []) 
    ensures Core(h', cfg)
  {
    hide Told, InOrder, Paced;
  }

  lemma {:induction false} LatestWithoutTexts<C>(h: HubState<C>, cfg: Config, clips: seq<RecoveryClip<C>>, now: int)
    requires AllKnown(h, clips)
    ensures var h' := Drain(h, cfg, clips, now).0;
            |h'.issued| >= |h.issued| && (|h'.issued| == |h.issued| ==> h'.latest == h.latest)
    decreases |clips|
  {
    hide ApplyClip;
    if clips != [] {
      var n := |clips| - 1;
      LatestWithoutTexts(h, cfg, clips[..n], now);
      var front := Drain(h, cfg, clips[..n], now).0;
      ApplyKeepsLatest(front.(considered := front.considered + [clips[n]]), cfg, clips[n].clip, clips[n].connection, now);
    }
  }

  lemma ApplyKeepsLatest<C>(h: HubState<C>, cfg: Config, clip: ClientClip, sender: C, now: int)
    requires Knows(h, sender)
    ensures var h' := ApplyClip(h, cfg, clip, sender, now).0;
            |h'.issued| >= |h.issued| && (|h'.issued| == |h.issued| ==> h'.latest == h.latest)
  {
    hide Remembered, Granted, Broadcast, OfferTo;
  }
}
