/** The promises of a hub over every run (internal/hub/hub.go). */
module HubTheorems {
  import opened Base
  import opened Messages
  import opened Connections
  import opened SeenIdRing
  import opened TokenBucket
  import opened SnapshotElection
  import opened HubSpec
  import opened HubInvariants
  import opened HubRuns

  // No open connection misses a version.

  /** A connection joins; whatever happens next, as long as it is listed and open it was told exactly the texts
      issued since it joined, in order, with consecutive versions ending in the current one; and once a welcome
      has gone out, a client that follows its frames knows the current text. So a missed frame means a closed
      connection. */
  lemma NoVersionIsMissed<C>(h: HubState<C>, cfg: Config, initialVersion: uint64, c: C, now: int, steps: seq<Step<C>>)
    requires Inv(h, cfg, initialVersion) && Enabled(h, Join(c, now)) && Runs(Take(h, cfg, Join(c, now)), cfg, steps)
    ensures var h' := After(Take(h, cfg, Join(c, now)), cfg, steps);
            c in h'.connections ==> c in h'.links && (!h'.links[c].closed ==>
            && |h.issued| <= |h'.issued|
            && FreshTexts(h'.links[c].log) == h'.issued[|h.issued|..]
            && ConsecutiveTo(FreshTexts(h'.links[c].log), h'.version)
            && InOrder(h'.links[c])
            && (h'.welcomed ==> Believed(h'.links[c].log) == Some(h'.latest))
            && (h'.latest.Some? ==> h'.latest.value.version == h'.version))
  {
    hide Take, Enabled, Core, Recovering, AllUpToDate;
    InvKnows(h, cfg, initialVersion);
    hide Inv, Listed;
    var joined := Take(h, cfg, Join(c, now));
    StepKeeps(h, cfg, initialVersion, Join(c, now));
    JoinTakes(h, cfg, initialVersion, c, now);
    RunKeeps(joined, cfg, initialVersion, steps);
    RunGrows(joined, cfg, initialVersion, steps);
    var h' := After(joined, cfg, steps);
    if c in h'.connections { ToldEverything(h', cfg, initialVersion, c); }
  }

  lemma JoinTakes<C>(h: HubState<C>, cfg: Config, initialVersion: uint64, c: C, now: int)
    requires Inv(h, cfg, initialVersion) && Enabled(h, Join(c, now))
    ensures var h' := Take(h, cfg, Join(c, now)); c in h'.joinedAt && h'.joinedAt[c] == |h.issued|
  {
    JoinGrows(h, cfg, initialVersion, c, now);
    hide Inv, Grows, AddConnection;
  }

  /** The versions of these texts count up, one by one, to the last. */
  ghost predicate ConsecutiveTo(texts: seq<LatestText>, last: int) {
    forall i :: 0 <= i < |texts| ==> texts[i].version == last - |texts| + 1 + i
  }

  lemma ToldEverything<C>(h: HubState<C>, cfg: Config, initialVersion: uint64, c: C)
    requires Inv(h, cfg, initialVersion) && c in h.connections
    ensures c in h.links && c in h.joinedAt && h.joinedAt[c] <= |h.issued|
    ensures !h.links[c].closed ==>
            && FreshTexts(h.links[c].log) == h.issued[h.joinedAt[c]..]
            && ConsecutiveTo(FreshTexts(h.links[c].log), h.version)
            && InOrder(h.links[c])
            && (h.welcomed ==> Believed(h.links[c].log) == Some(h.latest))
    ensures h.latest.Some? ==> h.latest.value.version == h.version
  {
    hide InOrder, Recorded, FreshTexts, Believed, Recovering;
    assert Told(h.links[c], h.issued[h.joinedAt[c]..]);
    assert h.welcomed ==> UpToDate(h.links[c], h.latest);
  }

  // Resending.

  /** A clip whose ring entry survives, resent with the same content by anyone at any time, changes nothing but
      the sender's queue, which gets the original version, even when the bucket is empty. */
  lemma ResendOnlyAcknowledges<C>(h: HubState<C>, cfg: Config, clip: ClientClip, text: LatestText, who: C, now: int)
    requires Knows(h, who)
    requires Lookup(h.ring, cfg.seenIdCapacity, clip.id) == Some(Some(text))
    requires text.payload == clip.payload && text.hash == clip.hash && text.encrypted == clip.encrypted
    ensures ApplyClip(h, cfg, clip, who, now) ==
            (h.(links := OfferTo(h.links, who, Delivery(AckFrame(clip.id, text), false))), Duplicate)
  {
  }

  /** A first-used id is still answered with its first text after any run in which fewer than the ring's capacity
      clips were accepted since, none of them under that id. */
  lemma ResendAfterRun<C>(h: HubState<C>, cfg: Config, initialVersion: uint64, k: nat, steps: seq<Step<C>>,
                          clip: ClientClip, who: C, now: int)
    requires Inv(h, cfg, initialVersion) && k < |h.issued| && Runs(h, cfg, steps)
    requires h.ring[k].id == clip.id && LastCall(h.ring[..k], clip.id) == -1
    requires var text := h.issued[k]; text.payload == clip.payload && text.hash == clip.hash && text.encrypted == clip.encrypted
    requires var h' := After(h, cfg, steps);
             && who in h'.links
             && |h'.issued| - (k + 1) < cfg.seenIdCapacity
             && (forall j :: k < j < |h'.ring| ==> h'.ring[j].id != clip.id)
    ensures var h' := After(h, cfg, steps);
            && Knows(h', who)
            && ApplyClip(h', cfg, clip, who, now) ==
               (h'.(links := OfferTo(h'.links, who, Delivery(AckFrame(clip.id, h.issued[k]), false))), Duplicate)
  {
    RunKeeps(h, cfg, initialVersion, steps);
    RunGrows(h, cfg, initialVersion, steps);
    var h' := After(h, cfg, steps);
    StillRemembered(h, h', cfg, initialVersion, k, clip.id);
    assert Knows(h', who);
    hide Inv, Runs, After, Grows, Knows, ApplyClip, Lookup, LastCall;
    ResendOnlyAcknowledges(h', cfg, clip, h.issued[k], who, now);
  }

  lemma StillRemembered<C>(h: HubState<C>, h': HubState<C>, cfg: Config, initialVersion: uint64, k: nat, id: gostring)
    requires Inv(h, cfg, initialVersion) && Inv(h', cfg, initialVersion) && Grows(h, h') && k < |h.issued|
    requires h.ring[k].id == id && LastCall(h.ring[..k], id) == -1
    requires |h'.issued| - (k + 1) < cfg.seenIdCapacity && (forall j :: k < j < |h'.ring| ==> h'.ring[j].id != id)
    ensures Lookup(h'.ring, cfg.seenIdCapacity, id) == Some(Some(h.issued[k]))
  {
    hide Listed, Complete, AllUpToDate, Numbered, Recovering, Paced, Lookup;
    assert h'.ring[k] == h.ring[k] == Call(id, Some(h.issued[k]));
    var before, later := h'.ring[..k], h'.ring[k + 1..];
    assert before == h.ring[..k];
    SplitAt(h'.ring, k);
    NotCalled(later, id);
    FirstUseSurvives(before, h'.ring[k], later, cfg.seenIdCapacity);
  }

  lemma SplitAt<T>(s: seq<T>, k: nat)
    requires k < |s|
    ensures s == s[..k] + [s[k]] + s[k + 1..]
  {
  }

  lemma {:induction false} NotCalled<V>(h: seq<Call<V>>, id: gostring)
    requires forall j :: 0 <= j < |h| ==> h[j].id != id
    ensures LastCall(h, id) == -1
  {
  }

  /** Only a fresh clip changes what anyone else can see: any other outcome leaves version, text, store, ring, queue
      and all other connections alone, and gives the sender at most one frame, which announces nothing. */
  lemma OnlyFreshClipsShow<C>(h: HubState<C>, cfg: Config, clip: ClientClip, sender: C, now: int, x: C)
    requires Knows(h, sender) && x in h.links
    ensures var (h', outcome) := ApplyClip(h, cfg, clip, sender, now);
            && (!outcome.Fresh? ==>
                && h' == h.(grants := h'.grants, lastRefill := h'.lastRefill, links := h'.links)
                && (x != sender ==> h'.links[x] == h.links[x])
                && FreshTexts(h'.links[sender].log) == FreshTexts(h.links[sender].log)
                && |h'.links[sender].log| <= |h.links[sender].log| + 1)
            && (outcome.Fresh? ==>
                && h'.version == h.version + 1 && h'.stored == Max(h.stored, h.version + 1)
                && h'.latest == Some(TextOf(clip, h.version + 1, h.links[sender], now)))
            && (outcome.Fresh? <==> Remembered(h, cfg, clip).None? && Granted(h, cfg, now) && h.version < MAX_UINT64)
  {
    hide Remembered, Granted, Broadcast, Offered, FreshTexts;
    if Remembered(h, cfg, clip).Some? {
      QuietLog(h.links[sender], Delivery(AckFrame(clip.id, Remembered(h, cfg, clip).value), false));
    } else {
      QuietLog(h.links[sender], Delivery(RateLimitedFrame(clip.id), false));
    }
  }

  lemma QuietLog(l: Link, d: Delivery)
    requires FreshIn(d) == []
    ensures FreshTexts(Offered(l, d).log) == FreshTexts(l.log) && |Offered(l, d).log| <= |l.log| + 1
  {
    LogStep(l.log, d);
  }

  // Pace.

  /** Fresh clips keep to the bucket's pace over every stretch: no run issues more texts between two of its
      issue times than the burst plus the rate times the time between. */
  lemma IssuedArePaced<C>(h: HubState<C>, cfg: Config, initialVersion: uint64, i: nat, j: nat)
    requires Inv(h, cfg, initialVersion) && i <= j < |h.issued|
    ensures h.issued[i].updatedAtUtc <= h.issued[j].updatedAtUtc
    ensures (j - i + 1) as real <= cfg.clipBurst as real + Earned(cfg.clipRate, h.issued[i].updatedAtUtc, h.issued[j].updatedAtUtc)
  {
    hide Listed, Complete, AllUpToDate, Numbered, Recovering, Earned;
  }

  // Recovery.

  /** While the window is open nothing has happened yet; closing it reaches the greater of the stored and the
      elected version, restores the elected text unless it is behind, adds one version for each queued clip that is
      accepted, and considers every queued clip in order of arrival. */
  lemma RecoveryReachesTheMaximum<C>(h: HubState<C>, cfg: Config, initialVersion: uint64, now: int)
    requires Inv(h, cfg, initialVersion) && !h.windowClosed
    ensures h.version == initialVersion && h.latest.None? && h.ring == [] && h.issued == []
    ensures AllKnown(h, h.recoveryQueue)
    ensures var (h', panicked) := CloseWindow(h, cfg, now);
            && h'.windowClosed && h'.recoveryQueue == []
            && h'.version == h'.stored == Max(initialVersion, WinnerVersion(h.candidates)) + |h'.issued|
            && (h'.issued == [] ==> (h'.latest.Some? <==> Elect(h.candidates).Some? && Elect(h.candidates).value.version >= initialVersion))
            && (h'.issued == [] && h'.latest.Some? ==> var w := Elect(h.candidates).value;
                h'.latest.value == LatestFromSnapshot(w.snapshot, w.version, w.clientId, w.clientName))
            && (!panicked ==> h'.considered == h.queued && h'.welcomed)
  {
    hide CloseWindow, Elect, Restore, Listed, Complete, Recorded, AllUpToDate, Numbered, Max, PayloadBytes;
    InvKnows(h, cfg, initialVersion);
    CloseKeeps(h, cfg, initialVersion, now);
    RestoreIs(h, cfg, initialVersion);
    StoredIs(CloseWindow(h, cfg, now).0, cfg, initialVersion);
  }

  lemma StoredIs<C>(h: HubState<C>, cfg: Config, initialVersion: uint64)
    requires Inv(h, cfg, initialVersion)
    ensures h.stored == h.version && (h.latest.Some? ==> h.latest.value.version == h.version)
  {
    hide Listed, Complete, Recorded, AllUpToDate, Recovering;
  }

  lemma InvKnows<C>(h: HubState<C>, cfg: Config, initialVersion: uint64)
    requires Inv(h, cfg, initialVersion)
    ensures Listed(h) && AllKnown(h, h.recoveryQueue)
  {
    hide Numbered, Complete, Recorded, AllUpToDate, Recovering;
  }

  /** Closing a closed window changes nothing, at any later time of any run. */
  lemma ClosedForGood<C>(h: HubState<C>, cfg: Config, initialVersion: uint64, steps: seq<Step<C>>, now: int)
    requires Inv(h, cfg, initialVersion) && h.windowClosed && Runs(h, cfg, steps)
    ensures var h' := After(h, cfg, steps);
            && h'.windowClosed && h'.recoveryQueue == [] && h'.queued == h.queued && h'.considered == h.considered
            && AllKnown(h', h'.recoveryQueue) && CloseWindow(h', cfg, now) == (h', false)
            && h'.version - h.version == |h'.issued| - |h.issued|
  {
    RunKeeps(h, cfg, initialVersion, steps);
    RunGrows(h, cfg, initialVersion, steps);
    InvKnows(After(h, cfg, steps), cfg, initialVersion);
    hide Core, AllUpToDate, Runs, After, PayloadBytes, AllKnown;
  }

  /** Each clip that arrives is queued at the end, handed to the user loop, or refused by cancelling its
      connection, exactly one of these. */
  lemma ArrivingClips<C>(h: HubState<C>, cfg: Config, initialVersion: uint64, clip: ClientClip, c: C)
    requires Inv(h, cfg, initialVersion) && c in h.links
    ensures var h' := Receive(h, cfg, clip, c);
            var r := RecoveryClip(clip, c);
            if h.windowClosed then h' == h.(jobs := h.jobs + [ClipJob(c, clip)])
            else if |h.recoveryQueue| < cfg.recoveryCapacity then
              h' == h.(recoveryQueue := h.recoveryQueue + [r], queued := h.queued + [r])
            else h'.links[c].closed && h'.recoveryQueue == h.recoveryQueue && h'.jobs == h.jobs
                 && (forall x :: x in h.links && x != c ==> h'.links[x] == h.links[x])
    ensures |Receive(h, cfg, clip, c).recoveryQueue| <= cfg.recoveryCapacity
  {
    hide Core, AllUpToDate, PayloadBytes;
  }
}
