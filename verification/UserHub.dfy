/** A user's hub as the source has it: fields changed in place, loops over live connections (internal/hub/hub.go).
    Every method is proved to do what HubSpec says. `world` is any set of connections that includes the hub's. */
module UserHub {
  import opened Base
  import opened Messages
  import opened Connections
  import opened SeenIdRing
  import opened TokenBucket
  import opened SnapshotElection
  import opened StateStore
  import opened HubSpec
  import HubInvariants

  ghost function LinksOf(world: set<Connection>): (links: map<Connection, Link>)
    reads world
    ensures links.Keys == world
  {
    map c | c in world :: c.AsLink()
  }

  /** Versions of other users are left alone. */
  ghost predicate OthersKept(before: Versions, after: Versions, username: gostring) {
    forall u :: u != username ==> VersionOf(before, u) == VersionOf(after, u)
  }

  class Hub {
    const username: gostring
    const cfg: Config
    const store: Store
    const clipBucket: Bucket
    const seenIds: Ring
    var version: uint64
    var latest: Option<LatestText>
    var connections: seq<Connection>
    var snapshotCandidates: seq<ClientHello>
    var snapshotBytes: int
    var recoveryQueue: seq<RecoveryClip<Connection>>
    var recoveryWindowClosed: bool
    var jobs: seq<Job<Connection>>
    ghost var issued: seq<LatestText>
    ghost var joinedAt: map<Connection, nat>
    ghost var queued: seq<RecoveryClip<Connection>>
    ghost var considered: seq<RecoveryClip<Connection>>
    ghost var welcomed: bool

    ghost predicate Valid(world: set<Connection>)
      reads this, store, clipBucket, seenIds, seenIds.insertionOrder
    {
      && store.Valid() && clipBucket.Valid() && seenIds.Valid()
      && seenIds.insertionOrder.Length == cfg.seenIdCapacity
      && clipBucket.capacity == cfg.clipBurst && clipBucket.tokensPerSecond == cfg.clipRate && clipBucket.start == cfg.processStart
      && HubInvariants.Distinct(connections)
      && (forall c :: c in connections ==> c in world)
      && (forall i :: 0 <= i < |recoveryQueue| ==> recoveryQueue[i].connection in world)
      && (forall i :: 0 <= i < |jobs| ==> ConnectionOf(jobs[i]) in world)
    }

    /** The hub as a value of HubSpec. */
    ghost function View(world: set<Connection>): HubState<Connection>
      reads this, store, clipBucket, seenIds, world
    {
      HubState(version, latest, VersionOf(store.versions, username), connections, LinksOf(world), snapshotCandidates, snapshotBytes,
               recoveryQueue, recoveryWindowClosed, seenIds.history, clipBucket.grants, clipBucket.lastRefill, jobs,
               issued, joinedAt, queued, considered, welcomed)
    }

    constructor (username: gostring, cfg: Config, store: Store, initialVersion: uint64)
      requires ValidConfig(cfg) && store.Valid() && initialVersion == VersionOf(store.versions, username)
      ensures this.username == username && this.cfg == cfg && this.store == store
      ensures fresh(clipBucket) && fresh(seenIds) && fresh(seenIds.insertionOrder)
      ensures Valid({}) && View({}) == NewHub(cfg, initialVersion, map[])
    {
      this.username := username;
      this.cfg := cfg;
      this.store := store;
      version := initialVersion;
      clipBucket := new Bucket(cfg.clipBurst, cfg.clipRate, cfg.processStart);
      seenIds := new Ring(cfg.seenIdCapacity);
      latest := None;
      connections := [];
      snapshotCandidates := [];
      snapshotBytes := 0;
      recoveryQueue := [];
      recoveryWindowClosed := false;
      jobs := [];
      issued := [];
      joinedAt := map[];
      queued := [];
      considered := [];
      welcomed := false;
    }

    method IsEmpty() returns (empty: bool)
      ensures empty <==> connections == []
    {
      empty := |connections| == 0;
    }

    method IsRecoveryWindowOpen(now: int) returns (open: bool)
      ensures open <==> !recoveryWindowClosed && !WindowIsDue(cfg, now)
    {
      open := !recoveryWindowClosed && now < cfg.processStart + cfg.snapshotWindow;
    }

    // Sending.

    /** The loop that offers a frame to every listed connection but one. */
    method OfferAll(except: Option<Connection>, message: Frame, ghost isNew: bool, ghost world: set<Connection>)
      requires HubInvariants.Distinct(connections) && forall c :: c in connections ==> c in world
      modifies world
      ensures LinksOf(world) == Broadcast(old(LinksOf(world)), connections, except, Delivery(message, isNew))
    {
      hide Offered, LinksOf, Broadcast, HubInvariants.Distinct;
      ghost var before, d := LinksOf(world), Delivery(message, isNew);
      BroadcastStart(before, except, d);
      for i := 0 to |connections|
        invariant LinksOf(world) == Broadcast(before, connections[..i], except, d)
      {
        BroadcastStep(before, connections, i, except, d);
        if except != Some(connections[i]) {
          OfferOne(connections[i], message, isNew, world);
        }
      }
      assert connections[..|connections|] == connections;
    }

    method OfferOne(c: Connection, message: Frame, ghost isNew: bool, ghost world: set<Connection>)
      requires c in world
      modifies c
      ensures LinksOf(world) == OfferTo(old(LinksOf(world)), c, Delivery(message, isNew))
    {
      hide Offered;
      c.Offer(message, isNew);
    }

    // Clips.

    method ApplyClip(clip: ClientClip, sender: Connection, now: int, ghost world: set<Connection>) returns (panicked: bool)
      requires Valid(world) && sender in world
      modifies this`version, this`latest, this`issued, store`versions, store`isDirty, clipBucket, seenIds, seenIds.insertionOrder, world
      ensures Valid(world) && OthersKept(old(store.versions), store.versions, username)
      ensures var (h, outcome) := HubSpec.ApplyClip(old(View(world)), cfg, clip, sender, now);
              View(world) == h && panicked == outcome.Overflow?
    {
      hide Valid, View, LinksOf, OfferTo, Affordable, Remembered, Granted, Assign;
      ghost var h := View(world);
      ViewOf(world);
      var duplicate, same := FindDuplicate(clip, world);
      if same {
        // The source falls back to the hub's latest text for a remembered id without a text. There is none.
        if duplicate.None? {
          assert false;
        }
        Reply(sender, AckFrame(clip.id, duplicate.value), false, world);
        return false;
      }
      var ok := TakeToken(now, world);
      if !ok {
        Reply(sender, RateLimitedFrame(clip.id), false, world);
        return false;
      }
      if version == MAX_UINT64 {
        return true;
      }
      AssignVersion(clip, sender, now, world);
      panicked := false;
    }

    method FindDuplicate(clip: ClientClip, ghost world: set<Connection>) returns (latest: Option<LatestText>, same: bool)
      requires Valid(world)
      ensures same == Remembered(View(world), cfg, clip).Some?
      ensures same ==> latest == Remembered(View(world), cfg, clip)
    {
      hide Lookup, EntriesMatch, SlotsMatch, IsLevel, Paced, LinksOf;
      latest, same := seenIds.IsUnchangedDuplicate(clip.id, clip.payload, clip.hash, clip.encrypted);
    }

    method TakeToken(now: int, ghost world: set<Connection>) returns (ok: bool)
      requires Valid(world)
      modifies clipBucket
      ensures Valid(world)
      ensures var h := old(View(world));
              && ok == Granted(h, cfg, now)
              && View(world) == h.(grants := h.grants + (if ok then [now] else []), lastRefill := Max(h.lastRefill, now))
    {
      hide Affordable, EntriesMatch, SlotsMatch, IsLevel, Paced, LinksOf, HubInvariants.Distinct;
      ok := clipBucket.TryAcquire(now);
    }

    method Reply(c: Connection, message: Frame, ghost isNew: bool, ghost world: set<Connection>)
      requires Valid(world) && c in world
      modifies c
      ensures Valid(world)
      ensures var h := old(View(world)); View(world) == h.(links := OfferTo(h.links, c, Delivery(message, isNew)))
    {
      hide EntriesMatch, SlotsMatch, IsLevel, Paced, LinksOf, OfferTo, HubInvariants.Distinct;
      OfferOne(c, message, isNew, world);
    }

    /** The part of ApplyClip that a fresh clip within its pace reaches. */
    method AssignVersion(clip: ClientClip, sender: Connection, now: int, ghost world: set<Connection>)
      requires Valid(world) && sender in world && version < MAX_UINT64
      modifies this`version, this`latest, this`issued, store`versions, store`isDirty, seenIds, seenIds.insertionOrder, world
      ensures Valid(world) && OthersKept(old(store.versions), store.versions, username)
      ensures View(world) == Assign(old(View(world)), clip, sender, old(version) + 1, now)
    {
      hide Valid, View, LinksOf, Broadcast, OfferTo;
      ghost var h := View(world);
      ViewOf(world);
      LinkAt(world, sender);
      var text := LatestText(clip.payload, version + 1, clip.hash, clip.encrypted, sender.clientId, sender.clientName, now);
      Record(clip.id, text, world);
      Announce(clip.id, text, sender, world);
    }

    /** Version, store, latest text and ring. */
    method Record(id: gostring, text: LatestText, ghost world: set<Connection>)
      requires Valid(world)
      modifies this`version, this`latest, this`issued, store`versions, store`isDirty, seenIds, seenIds.insertionOrder
      ensures Valid(world) && OthersKept(old(store.versions), store.versions, username)
      ensures var h := old(View(world));
              View(world) == h.(version := text.version, latest := Some(text), stored := Max(h.stored, text.version),
                                ring := h.ring + [Call(id, Some(text))], issued := h.issued + [text])
    {
      hide Valid, View, LinksOf, OthersKept;
      SaveVersion(text.version, world);
      SetText(text, world);
      Remember(id, text, world);
    }

    method SaveVersion(version: uint64, ghost world: set<Connection>)
      requires Valid(world)
      modifies store`versions, store`isDirty
      ensures Valid(world) && OthersKept(old(store.versions), store.versions, username)
      ensures var h := old(View(world)); View(world) == h.(stored := Max(h.stored, version))
    {
      hide SlotsMatch, EntriesMatch, IsLevel, Paced, HubInvariants.Distinct, LinksOf, Merged;
      SavedVersion(VersionOf(store.versions, username), store.versions, username, version);
      store.SaveVersion(username, version);
    }

    method SetText(text: LatestText, ghost world: set<Connection>)
      requires Valid(world)
      modifies this`version, this`latest, this`issued
      ensures Valid(world)
      ensures var h := old(View(world)); View(world) == h.(version := text.version, latest := Some(text), issued := h.issued + [text])
    {
      hide SlotsMatch, EntriesMatch, IsLevel, Paced, HubInvariants.Distinct, LinksOf;
      version := text.version;
      latest := Some(text);
      issued := issued + [text];
    }

    method Remember(id: gostring, text: LatestText, ghost world: set<Connection>)
      requires Valid(world)
      modifies seenIds, seenIds.insertionOrder
      ensures Valid(world)
      ensures var h := old(View(world)); View(world) == h.(ring := h.ring + [Call(id, Some(text))])
    {
      hide SlotsMatch, EntriesMatch, IsLevel, Paced, HubInvariants.Distinct, LinksOf;
      seenIds.Remember(id, Some(text));
    }

    /** Broadcast to the others, then acknowledge the sender. */
    method Announce(id: gostring, text: LatestText, sender: Connection, ghost world: set<Connection>)
      requires Valid(world) && sender in world
      modifies world
      ensures Valid(world)
      ensures var h := old(View(world));
              var told := Broadcast(h.links, h.connections, Some(sender), Delivery(ClipFrame(id, text), true));
              View(world) == h.(links := OfferTo(told, sender, Delivery(AckFrame(id, text), true)))
    {
      hide Affordable, SlotsMatch, EntriesMatch, IsLevel, Paced, HubInvariants.Distinct, LinksOf, Broadcast, OfferTo;
      OfferAll(Some(sender), ClipFrame(id, text), true, world);
      OfferOne(sender, AckFrame(id, text), true, world);
    }

    // The recovery window.

    method AcceptSnapshot(hello: ClientHello, ghost world: set<Connection>)
      requires Valid(world)
      modifies this`snapshotCandidates, this`snapshotBytes
      ensures Valid(world) && View(world) == HubSpec.AcceptSnapshot(old(View(world)), cfg, hello)
    {
      hide EntriesMatch, SlotsMatch, IsLevel, Paced, LinksOf, HubInvariants.Distinct;
      if recoveryWindowClosed {
        return;
      }
      if hello.snapshot.None? {
        return;
      }
      var bytes := |hello.snapshot.value.payload|;
      if snapshotBytes + bytes > cfg.snapshotTotalBytes {
        return;
      }
      snapshotCandidates := snapshotCandidates + [hello];
      snapshotBytes := snapshotBytes + bytes;
    }

    method ClassifyClip(clip: ClientClip, c: Connection, ghost world: set<Connection>) returns (decision: Decision)
      requires Valid(world) && c in world
      modifies this`recoveryQueue, this`queued
      ensures Valid(world) && (View(world), decision) == HubSpec.ClassifyClip(old(View(world)), cfg, clip, c)
    {
      hide EntriesMatch, SlotsMatch, IsLevel, Paced, LinksOf, HubInvariants.Distinct;
      if recoveryWindowClosed {
        return ProcessNow;
      }
      if |recoveryQueue| >= cfg.recoveryCapacity {
        return QueueFull;
      }
      recoveryQueue := recoveryQueue + [RecoveryClip(clip, c)];
      queued := queued + [RecoveryClip(clip, c)];
      decision := Queued;
    }

    /** Restores the elected snapshot and saves its version. */
    method RestoreLatest(ghost world: set<Connection>)
      requires Valid(world)
      modifies this`version, this`latest, store`versions, store`isDirty
      ensures Valid(world) && OthersKept(old(store.versions), store.versions, username)
      ensures View(world) == Restore(old(View(world)))
    {
      hide Valid, View, Elect;
      ViewOf(world);
      var winner := SelectSnapshotWinner(snapshotCandidates);
      if winner.None? {
        return;
      }
      var canRestoreLatest := winner.value.version > version || (winner.value.version == version && latest.None?);
      if canRestoreLatest {
        SetLatest(winner.value, world);
      }
    }

    method SetLatest(w: Winner, ghost world: set<Connection>)
      requires Valid(world)
      modifies this`version, this`latest, store`versions, store`isDirty
      ensures Valid(world) && OthersKept(old(store.versions), store.versions, username)
      ensures var h := old(View(world));
              View(world) == h.(version := w.version, latest := Some(LatestFromSnapshot(w.snapshot, w.version, w.clientId, w.clientName)),
                                stored := if w.version > h.version then Max(h.stored, w.version) else h.stored)
    {
      hide EntriesMatch, SlotsMatch, IsLevel, Paced, LinksOf, HubInvariants.Distinct, Merged;
      if w.version > version {
        SavedVersion(VersionOf(store.versions, username), store.versions, username, w.version);
        store.SaveVersion(username, w.version);
      }
      version := w.version;
      latest := Some(LatestFromSnapshot(w.snapshot, w.version, w.clientId, w.clientName));
    }

    /** Marks the window closed and takes the queue. */
    method TakeQueue(ghost world: set<Connection>) returns (clips: seq<RecoveryClip<Connection>>)
      requires Valid(world)
      modifies this`recoveryWindowClosed, this`recoveryQueue
      ensures Valid(world) && clips == old(recoveryQueue) && AllKnown(View(world), clips)
      ensures View(world) == old(View(world)).(windowClosed := true, recoveryQueue := [])
    {
      hide EntriesMatch, SlotsMatch, IsLevel, Paced, HubInvariants.Distinct;
      recoveryWindowClosed := true;
      clips := recoveryQueue;
      recoveryQueue := [];
    }

    method CloseRecoveryWindow(now: int, ghost world: set<Connection>) returns (panicked: bool)
      requires Valid(world)
      modifies this, store`versions, store`isDirty, clipBucket, seenIds, seenIds.insertionOrder, world
      ensures Valid(world) && OthersKept(old(store.versions), store.versions, username)
      ensures AllKnown(old(View(world)), old(recoveryQueue))
      ensures (View(world), panicked) == CloseWindow(old(View(world)), cfg, now)
    {
      ViewKnows(world);
      if recoveryWindowClosed {
        hide CloseWindow;
        return false;
      }
      hide Valid, View, LinksOf, Restore, Drain;
      RestoreLatest(world);
      var clips := TakeQueue(world);
      panicked := ProcessQueue(clips, now, world);
      if panicked {
        return true;
      }
      BroadcastWelcome(world);
    }

    /** The queued clips in order of arrival, skipping those of closed connections. */
    method ProcessQueue(clips: seq<RecoveryClip<Connection>>, now: int, ghost world: set<Connection>) returns (panicked: bool)
      requires Valid(world) && AllKnown(View(world), clips)
      modifies this`version, this`latest, this`issued, this`considered, store`versions, store`isDirty, clipBucket, seenIds,
               seenIds.insertionOrder, world
      ensures Valid(world) && OthersKept(old(store.versions), store.versions, username)
      ensures (View(world), panicked) == Drain(old(View(world)), cfg, clips, now)
    {
      hide Valid, View, LinksOf, Drain, Consider;
      ghost var h := View(world);
      DrainStep(h, cfg, clips, 0, now);
      for i := 0 to |clips|
        invariant Valid(world) && OthersKept(old(store.versions), store.versions, username)
        invariant AllKnown(h, clips[..i]) && (View(world), false) == Drain(h, cfg, clips[..i], now)
      {
        DrainStep(h, cfg, clips, i, now);
        panicked := ConsiderClip(clips[i], now, world);
        if panicked {
          DrainPanics(h, cfg, clips, i + 1, now);
          return;
        }
      }
      assert clips[..|clips|] == clips;
      panicked := false;
    }

    method ConsiderClip(r: RecoveryClip<Connection>, now: int, ghost world: set<Connection>) returns (panicked: bool)
      requires Valid(world) && Knows(View(world), r.connection)
      modifies this`version, this`latest, this`issued, this`considered, store`versions, store`isDirty, clipBucket, seenIds,
               seenIds.insertionOrder, world
      ensures Valid(world) && OthersKept(old(store.versions), store.versions, username)
      ensures (View(world), panicked) == Consider(old(View(world)), cfg, r, now)
    {
      hide HubSpec.ApplyClip;
      LinkAt(world, r.connection);
      Note(r, world);
      hide Valid, View, LinksOf;
      if r.connection.closed {
        return false;
      }
      panicked := ApplyClip(r.clip, r.connection, now, world);
    }

    ghost method Note(r: RecoveryClip<Connection>, world: set<Connection>)
      requires Valid(world)
      modifies this`considered
      ensures Valid(world) && View(world) == old(View(world)).(considered := old(View(world)).considered + [r])
    {
      hide EntriesMatch, SlotsMatch, IsLevel, Paced, LinksOf, HubInvariants.Distinct;
      considered := considered + [r];
    }

    method BroadcastWelcome(ghost world: set<Connection>)
      requires Valid(world)
      modifies this`welcomed, world
      ensures Valid(world) && View(world) == WelcomeAll(old(View(world)))
    {
      hide EntriesMatch, SlotsMatch, IsLevel, Paced, LinksOf, HubInvariants.Distinct, Broadcast;
      OfferAll(None, Welcome(latest), false, world);
      welcomed := true;
    }

    method EnsureRecoveryWindowClosed(now: int, ghost world: set<Connection>) returns (panicked: bool)
      requires Valid(world)
      modifies this, store`versions, store`isDirty, clipBucket, seenIds, seenIds.insertionOrder, world
      ensures Valid(world) && OthersKept(old(store.versions), store.versions, username)
      ensures AllKnown(old(View(world)), old(recoveryQueue))
      ensures (View(world), panicked) == EnsureClosed(old(View(world)), cfg, now)
    {
      ViewKnows(world);
      hide Valid, LinksOf, CloseWindow;
      if !recoveryWindowClosed && now >= cfg.processStart + cfg.snapshotWindow {
        panicked := CloseRecoveryWindow(now, world);
      } else {
        ClosedStays(View(world), cfg, now);
        panicked := false;
      }
    }

    // Connections coming and going.

    method AddConnection(c: Connection, now: int, ghost world: set<Connection>) returns (panicked: bool)
      requires Valid(world) && c in world && c !in connections
      modifies this, store`versions, store`isDirty, clipBucket, seenIds, seenIds.insertionOrder, world
      ensures Valid(world) && OthersKept(old(store.versions), store.versions, username)
      ensures Knows(old(View(world)), c) && AllKnown(old(View(world)), old(recoveryQueue))
      ensures (View(world), panicked) == HubSpec.AddConnection(old(View(world)), cfg, c, now)
    {
      ViewKnows(world);
      Append(c, world);
      hide Valid, LinksOf, EnsureClosed, OfferTo;
      if recoveryWindowClosed {
        Reply(c, Welcome(latest), false, world);
        return false;
      }
      panicked := EnsureRecoveryWindowClosed(now, world);
    }

    method Append(c: Connection, ghost world: set<Connection>)
      requires Valid(world) && c in world && c !in connections
      modifies this`connections, this`joinedAt
      ensures Valid(world)
      ensures var h := old(View(world));
              View(world) == h.(connections := h.connections + [c], joinedAt := h.joinedAt[c := |h.issued|])
    {
      hide EntriesMatch, SlotsMatch, IsLevel, Paced, LinksOf;
      connections := connections + [c];
      joinedAt := joinedAt[c := |issued|];
    }

    method RemoveConnection(c: Connection, ghost world: set<Connection>) returns (removed: bool)
      requires Valid(world)
      modifies this`connections
      ensures Valid(world) && View(world) == HubSpec.RemoveConnection(old(View(world)), c)
      ensures removed <==> c in old(connections)
    {
      hide EntriesMatch, SlotsMatch, IsLevel, Paced, LinksOf, HubInvariants.Distinct;
      removed := false;
      for i := 0 to |connections|
        invariant connections == old(connections) && c !in connections[..i]
      {
        if connections[i] == c {
          WithoutAt(connections, i, c);
          HubInvariants.WithoutKeeps(connections, c);
          connections := connections[..i] + connections[i + 1..];
          return true;
        }
      }
      WithoutNone(connections, c);
    }

    /** The coordinator's CancelConnection and EnqueueImmediateClose for a connection of this hub. */
    method CancelConnection(c: Connection, ghost world: set<Connection>)
      requires Valid(world) && c in world
      modifies this`connections, c
      ensures Valid(world) && View(world) == Cancel(old(View(world)), c)
    {
      hide HubSpec.RemoveConnection;
      LinkAt(world, c);
      var first := MarkClosed(c, world);
      hide Valid, View, LinksOf;
      if !first {
        return;
      }
      var _ := RemoveConnection(c, world);
    }

    method MarkClosed(c: Connection, ghost world: set<Connection>) returns (first: bool)
      requires Valid(world) && c in world
      modifies c
      ensures Valid(world) && first == !old(c.closed)
      ensures var h := old(View(world));
              View(world) == if first then h.(links := h.links[c := h.links[c].(closed := true)]) else h
    {
      hide EntriesMatch, SlotsMatch, IsLevel, Paced, LinksOf, HubInvariants.Distinct;
      first := CloseOne(c, world);
    }

    method CloseOne(c: Connection, ghost world: set<Connection>) returns (first: bool)
      requires c in world
      modifies c
      ensures first == !old(c.closed)
      ensures var links := old(LinksOf(world));
              LinksOf(world) == if first then links[c := links[c].(closed := true)] else links
    {
      first := c.MarkClosed();
      if first {
        c.cancelled := true;
      }
    }

    // The read loop and the user loop.

    method TryWriteJob(job: Job<Connection>, ghost world: set<Connection>) returns (ok: bool)
      requires Valid(world) && ConnectionOf(job) in world
      modifies this`jobs
      ensures ok && Valid(world) && View(world) == old(View(world)).(jobs := old(View(world)).jobs + [job])
    {
      hide EntriesMatch, SlotsMatch, IsLevel, Paced, LinksOf, HubInvariants.Distinct;
      jobs := jobs + [job];
      ok := true;
    }

    /** What the read loop does with a clip. */
    method Receive(clip: ClientClip, c: Connection, ghost world: set<Connection>)
      requires Valid(world) && c in world
      modifies this`recoveryQueue, this`queued, this`jobs, this`connections, c
      ensures Valid(world) && View(world) == HubSpec.Receive(old(View(world)), cfg, clip, c)
    {
      hide Valid, View, LinksOf, HubSpec.ClassifyClip, Cancel;
      var decision := ClassifyClip(clip, c, world);
      if decision == QueueFull {
        CancelConnection(c, world);
      } else if decision == ProcessNow {
        var _ := TryWriteJob(ClipJob(c, clip), world);
      }
    }

    method ProcessJob(job: Job<Connection>, now: int, ghost world: set<Connection>) returns (panicked: bool)
      requires Valid(world) && ConnectionOf(job) in world
      modifies this, store`versions, store`isDirty, clipBucket, seenIds, seenIds.insertionOrder, world
      ensures Valid(world) && OthersKept(old(store.versions), store.versions, username)
      ensures Knows(old(View(world)), ConnectionOf(job))
      ensures (View(world), panicked) == HubSpec.ProcessJob(old(View(world)), cfg, job, now)
    {
      hide Valid, View, LinksOf, HubSpec.ApplyClip, HubSpec.AcceptSnapshot, Cancel, Knows, AllKnown;
      ViewKnows(world);
      panicked := false;
      match job
      case ClipJob(sender, clip) => panicked := ApplyClip(clip, sender, now, world);
      case PongJob(c) => SetLastSeen(c, now, world);
      case HelloJob(c, hello) =>
        SetHelloReceived(c, world);
        if hello.snapshot.Some? {
          AcceptSnapshot(hello, world);
        } else {
          NoSnapshot(View(world), cfg, hello);
        }
      case DisconnectJob(c) => CancelConnection(c, world);
    }

    method SetLastSeen(c: Connection, t: int, ghost world: set<Connection>)
      requires Valid(world) && c in world
      modifies c
      ensures Valid(world)
      ensures var h := old(View(world)); View(world) == h.(links := h.links[c := h.links[c].(lastSeen := t)])
    {
      hide EntriesMatch, SlotsMatch, IsLevel, Paced, HubInvariants.Distinct;
      ghost var links := LinksOf(world);
      c.SetLastSeen(t);
      assert LinksOf(world) == links[c := links[c].(lastSeen := t)];
      hide LinksOf;
    }

    method SetHelloReceived(c: Connection, ghost world: set<Connection>)
      requires Valid(world) && c in world
      modifies c
      ensures Valid(world)
      ensures var h := old(View(world)); View(world) == h.(links := h.links[c := h.links[c].(helloReceived := true)])
    {
      hide EntriesMatch, SlotsMatch, IsLevel, Paced, HubInvariants.Distinct;
      ghost var links := LinksOf(world);
      c.SetHelloReceived(true);
      assert LinksOf(world) == links[c := links[c].(helloReceived := true)];
      hide LinksOf;
    }

    /** One turn of the user loop. */
    method ProcessNext(now: int, ghost world: set<Connection>) returns (panicked: bool)
      requires Valid(world) && jobs != []
      modifies this, store`versions, store`isDirty, clipBucket, seenIds, seenIds.insertionOrder, world
      ensures Valid(world) && OthersKept(old(store.versions), store.versions, username)
      ensures var h := old(View(world));
              && Knows(h, ConnectionOf(h.jobs[0]))
              && (View(world), panicked) == HubSpec.ProcessJob(h.(jobs := h.jobs[1..]), cfg, h.jobs[0], now)
    {
      ViewKnows(world);
      var job := PopJob(world);
      hide Valid, LinksOf, HubSpec.ProcessJob;
      panicked := ProcessJob(job, now, world);
    }

    method PopJob(ghost world: set<Connection>) returns (job: Job<Connection>)
      requires Valid(world) && jobs != []
      modifies this`jobs
      ensures Valid(world) && job == old(jobs)[0] && View(world) == old(View(world)).(jobs := old(jobs)[1..])
    {
      hide EntriesMatch, SlotsMatch, IsLevel, Paced, LinksOf, HubInvariants.Distinct;
      job := jobs[0];
      jobs := jobs[1..];
    }

    lemma ViewKnows(world: set<Connection>)
      requires Valid(world)
      ensures AllKnown(View(world), recoveryQueue) && forall c :: c in world ==> Knows(View(world), c)
      ensures forall i :: 0 <= i < |jobs| ==> ConnectionOf(jobs[i]) in world
    {
      hide EntriesMatch, SlotsMatch, IsLevel, Paced, HubInvariants.Distinct;
    }

    lemma ViewOf(world: set<Connection>)
      ensures View(world).links == LinksOf(world) && View(world).version == version && View(world).connections == connections
      ensures View(world).latest == latest && View(world).candidates == snapshotCandidates
      ensures Valid(world) ==> forall c :: c in connections ==> c in world
    {
    }
  }

  lemma DrainStep<C>(h: HubState<C>, cfg: Config, clips: seq<RecoveryClip<C>>, i: nat, now: int)
    requires i <= |clips| && AllKnown(h, clips)
    ensures AllKnown(h, clips[..i]) && Drain(h, cfg, [], now) == (h, false)
    ensures i < |clips| ==>
      && AllKnown(h, clips[..i + 1])
      && var (front, panicked) := Drain(h, cfg, clips[..i], now);
         && Knows(front, clips[i].connection)
         && Drain(h, cfg, clips[..i + 1], now) == if panicked then (front, true) else Consider(front, cfg, clips[i], now)
  {
    hide Consider;
    if i < |clips| { assert clips[..i + 1][..i] == clips[..i]; }
  }

  lemma {:induction false} DrainPanics<C>(h: HubState<C>, cfg: Config, clips: seq<RecoveryClip<C>>, i: nat, now: int)
    requires i <= |clips| && AllKnown(h, clips) && AllKnown(h, clips[..i]) && Drain(h, cfg, clips[..i], now).1
    ensures Drain(h, cfg, clips, now) == Drain(h, cfg, clips[..i], now)
    decreases |clips|
  {
    hide Consider;
    if i == |clips| {
      assert clips[..i] == clips;
    } else {
      var n := |clips| - 1;
      assert clips[..n][..i] == clips[..i];
      DrainPanics(h, cfg, clips[..n], i, now);
    }
  }

  lemma ClosedStays<C>(h: HubState<C>, cfg: Config, now: int)
    requires AllKnown(h, h.recoveryQueue) && (h.windowClosed || !WindowIsDue(cfg, now))
    ensures EnsureClosed(h, cfg, now) == (h, false)
  {
  }

  lemma NoSnapshot<C>(h: HubState<C>, cfg: Config, hello: ClientHello)
    requires hello.snapshot.None?
    ensures HubSpec.AcceptSnapshot(h, cfg, hello) == h
  {
  }

  lemma {:induction false} WithoutAt<C>(cs: seq<C>, i: nat, c: C)
    requires i < |cs| && cs[i] == c && c !in cs[..i]
    ensures Without(cs, c) == cs[..i] + cs[i + 1..]
    decreases |cs|
  {
    if i > 0 {
      assert cs[0] in cs[..i] && cs[1..][..i - 1] == cs[1..i];
      WithoutAt(cs[1..], i - 1, c);
      assert cs[..i] + cs[i + 1..] == [cs[0]] + (cs[1..][..i - 1] + cs[1..][i..]);
    }
  }

  lemma {:induction false} WithoutNone<C>(cs: seq<C>, c: C)
    requires c !in cs
    ensures Without(cs, c) == cs
  {
    if cs != [] { WithoutNone(cs[1..], c); }
  }

  lemma LinkAt(world: set<Connection>, c: Connection)
    requires c in world
    ensures LinksOf(world)[c] == c.AsLink()
  {
  }

  lemma BroadcastStart(links: map<Connection, Link>, except: Option<Connection>, d: Delivery)
    ensures Broadcast(links, [], except, d) == links
  {
  }

  lemma BroadcastStep(links: map<Connection, Link>, listed: seq<Connection>, i: nat, except: Option<Connection>, d: Delivery)
    requires HubInvariants.Distinct(listed) && i < |listed| && listed[i] in links
    ensures Broadcast(links, listed[..i + 1], except, d) ==
            if except == Some(listed[i]) then Broadcast(links, listed[..i], except, d)
            else OfferTo(Broadcast(links, listed[..i], except, d), listed[i], d)
  {
    hide Offered;
    assert listed[..i + 1] == listed[..i] + [listed[i]];
    assert listed[i] !in listed[..i];
  }

  lemma SavedVersion(stored: uint64, before: Versions, username: gostring, version: uint64)
    requires stored == VersionOf(before, username)
    ensures VersionOf(Merged(before, username, version), username) == Max(stored, version)
    ensures OthersKept(before, Merged(before, username, version), username)
  {
  }
}
