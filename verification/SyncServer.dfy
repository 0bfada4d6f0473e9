/** The registry of hubs and the server around it (internal/hub/registry.go, internal/sync/server.go). */
module SyncServer {
  import opened Base
  import opened Connections
  import opened StateStore
  import opened HubSpec
  import opened HubInvariants
  import opened Heartbeat
  import opened ScanSpec
  import opened UserHub
  import SeenIdRing
  import TokenBucket

  class Registry {
    var hubs: map<gostring, Hub>

    ghost predicate Valid()
      reads this
    {
      forall username :: username in hubs ==> hubs[username].username == username
    }

    constructor ()
      ensures Valid() && hubs == map[]
    {
      hubs := map[];
    }

    /** The hub registered under the name, made now from the given version if there is none. */
    method GetOrAdd(username: gostring, cfg: Config, store: Store, initialVersion: uint64) returns (hub: Hub)
      requires Valid() && ValidConfig(cfg) && store.Valid() && initialVersion == VersionOf(store.versions, username)
      modifies this
      ensures Valid() && username in hubs && hub == hubs[username]
      ensures username in old(hubs) ==> hubs == old(hubs)
      ensures username !in old(hubs) ==>
        && hubs == old(hubs)[username := hub]
        && fresh(hub) && hub.cfg == cfg && hub.store == store
        && hub.Valid({}) && hub.View({}) == NewHub(cfg, initialVersion, map[])
    {
      if username in hubs {
        return hubs[username];
      }
      hub := new Hub(username, cfg, store, initialVersion);
      hubs := hubs[username := hub];
    }

    method TryGet(username: gostring) returns (hub: Option<Hub>)
      ensures hub == if username in hubs then Some(hubs[username]) else None
    {
      hub := if username in hubs then Some(hubs[username]) else None;
    }

    /** Removes the hub only if it has no connection, its window allows it, and it is still the registered one. */
    method RemoveIfEmpty(hub: Hub, allowDuringRecovery: bool, now: int)
      requires Valid()
      modifies this
      ensures Valid()
      ensures var open := !hub.recoveryWindowClosed && !WindowIsDue(hub.cfg, now);
              var goes := hub.connections == [] && (allowDuringRecovery || !open) && hub.username in old(hubs) && old(hubs)[hub.username] == hub;
              hubs == if goes then old(hubs) - {hub.username} else old(hubs)
    {
      var empty := hub.IsEmpty();
      if !empty {
        return;
      }
      var open := hub.IsRecoveryWindowOpen(now);
      if !allowDuringRecovery && open {
        return;
      }
      var _ := Remove(hub);
    }

    method Remove(hub: Hub) returns (removed: bool)
      requires Valid()
      modifies this
      ensures Valid()
      ensures removed <==> hub.username in old(hubs) && old(hubs)[hub.username] == hub
      ensures hubs == if removed then old(hubs) - {hub.username} else old(hubs)
    {
      if hub.username in hubs && hubs[hub.username] == hub {
        hubs := hubs - {hub.username};
        return true;
      }
      removed := false;
    }
  }

  class Server {
    const registry: Registry
    const store: Store
    const cfg: Config
    const limits: Limits
    var pendingHellos: seq<Connection>

    constructor (cfg: Config, limits: Limits, store: Store)
      ensures this.cfg == cfg && this.limits == limits && this.store == store && pendingHellos == []
      ensures fresh(registry) && registry.Valid() && registry.hubs == map[]
    {
      this.cfg := cfg;
      this.limits := limits;
      this.store := store;
      pendingHellos := [];
      registry := new Registry();
    }

    /** A hub starts at the version the store has for its user. */
    method GetOrCreateHub(username: gostring) returns (hub: Hub)
      requires registry.Valid() && ValidConfig(cfg) && store.Valid()
      modifies registry
      ensures registry.Valid() && username in registry.hubs && hub == registry.hubs[username]
      ensures username in old(registry.hubs) ==> registry.hubs == old(registry.hubs)
      ensures username !in old(registry.hubs) ==>
        hub.Valid({}) && hub.View({}) == NewHub(cfg, VersionOf(store.versions, username), map[]) && hub.store == store
    {
      var initialVersion := store.GetVersion(username);
      hub := registry.GetOrAdd(username, cfg, store, initialVersion);
    }

    method RegisterPendingHello(c: Connection)
      modifies this`pendingHellos
      ensures pendingHellos == old(pendingHellos) + [c]
    {
      pendingHellos := pendingHellos + [c];
    }

    method UnregisterPendingHello(c: Connection)
      modifies this`pendingHellos
      ensures pendingHellos == Without(old(pendingHellos), c)
    {
      for i := 0 to |pendingHellos|
        invariant pendingHellos == old(pendingHellos) && c !in pendingHellos[..i]
      {
        if pendingHellos[i] == c {
          WithoutAt(pendingHellos, i, c);
          pendingHellos := pendingHellos[..i] + pendingHellos[i + 1..];
          return;
        }
      }
      WithoutNone(pendingHellos, c);
    }

    /** CancelConnection for a connection that has no hub yet. */
    method CancelProvisional(c: Connection)
      modifies this`pendingHellos, c
      ensures c.AsLink() == old(c.AsLink()).(closed := true)
      ensures c.cancelled == (old(c.cancelled) || !old(c.closed))
      ensures pendingHellos == Without(old(pendingHellos), c)
    {
      UnregisterPendingHello(c);
      var first := c.MarkClosed();
      if first {
        c.cancelled := true;
      }
    }

    /** CloseRecoveryWindow with the coordinator's part: a hub left empty at the close is dropped at once. */
    method CloseRecoveryWindow(hub: Hub, now: int, ghost world: set<Connection>) returns (panicked: bool)
      requires hub.Valid(world) && registry.Valid()
      modifies registry, hub, hub.store`versions, hub.store`isDirty, hub.clipBucket, hub.seenIds, hub.seenIds.insertionOrder, world
      ensures hub.Valid(world) && registry.Valid()
      ensures AllKnown(old(hub.View(world)), old(hub.recoveryQueue))
      ensures (hub.View(world), panicked) == CloseWindow(old(hub.View(world)), hub.cfg, now)
      ensures var goes := !old(hub.recoveryWindowClosed) && !panicked && hub.connections == []
                          && hub.username in old(registry.hubs) && old(registry.hubs)[hub.username] == hub;
              registry.hubs == if goes then old(registry.hubs) - {hub.username} else old(registry.hubs)
    {
      hide Hub.Valid, Hub.View, LinksOf, CloseWindow;
      var open := !hub.recoveryWindowClosed;
      panicked := hub.CloseRecoveryWindow(now, world);
      if open && !panicked {
        registry.RemoveIfEmpty(hub, true, now);
      }
    }

    /** CancelConnection for a connection attached to a hub. */
    method CancelConnection(c: Connection, hub: Hub, ghost world: set<Connection>)
      requires hub.Valid(world) && c in world
      modifies this`pendingHellos, hub`connections, c
      ensures hub.Valid(world) && hub.View(world) == Cancel(old(hub.View(world)), c)
      ensures pendingHellos == Without(old(pendingHellos), c)
    {
      UnregisterPendingHello(c);
      hub.CancelConnection(c, world);
    }

    /** Only the first timeout of an open connection counts. */
    method EnqueueHelloTimeout(c: Connection)
      modifies this`pendingHellos, c
      ensures var l := old(c.AsLink());
              var first := !l.helloTimeoutStarted && !l.closed;
              && c.AsLink() == (if first then l.(helloTimeoutStarted := true) else l)
              && pendingHellos == if first then Without(old(pendingHellos), c) else old(pendingHellos)
    {
      var first := c.TryStartHelloTimeout();
      if !first {
        return;
      }
      UnregisterPendingHello(c);
    }

    /** One hub's part of ScanHeartbeats. */
    method ScanConnections(hub: Hub, now: int, ghost world: set<Connection>)
      requires hub.Valid(world)
      modifies this`pendingHellos, hub`connections, world
      ensures hub.Valid(world)
      ensures var h := old(hub.View(world));
              && (forall c :: c in h.connections ==> c in h.links)
              && (hub.View(world), pendingHellos) == ScanHub(h, old(pendingHellos), now, limits)
    {
      hub.ViewKnows(world);
      hide Hub.Valid, Hub.View, LinksOf, TimedOut, GiveUpAll, ScannedLinks;
      var timedOut := Scan(hub, now, world);
      GiveUpEach(hub, timedOut, world);
    }

    /** The loop under the hub's lock, from the last listed connection to the first. */
    method Scan(hub: Hub, now: int, ghost world: set<Connection>) returns (timedOut: seq<Connection>)
      requires hub.Valid(world)
      modifies world
      ensures hub.Valid(world)
      ensures var h := old(hub.View(world));
              && (forall c :: c in h.connections ==> c in h.links)
              && hub.View(world) == h.(links := ScannedLinks(h.links, h.connections, now, limits))
              && timedOut == TimedOut(h.links, h.connections, now, limits)
    {
      hide SeenIdRing.EntriesMatch, SeenIdRing.SlotsMatch, TokenBucket.IsLevel, TokenBucket.Paced, LinksOf, TimedOut, ScannedLinks;
      timedOut := ScanLoop(hub.connections, now, world);
    }

    method ScanLoop(listed: seq<Connection>, now: int, ghost world: set<Connection>) returns (timedOut: seq<Connection>)
      requires Distinct(listed) && forall c :: c in listed ==> c in world
      modifies world
      ensures LinksOf(world) == ScannedLinks(old(LinksOf(world)), listed, now, limits)
      ensures timedOut == TimedOut(old(LinksOf(world)), listed, now, limits)
    {
      hide LinksOf, ScannedLinks, Distinct, TimesOut, Scanned, TimedOut;
      ghost var links := LinksOf(world);
      timedOut := [];
      var i := |listed|;
      assert listed[i..] == [] && listed[..i] == listed;
      NoneScanned(links, now, limits);
      while i > 0
        invariant 0 <= i <= |listed|
        invariant LinksOf(world) == ScannedLinks(links, listed[i..], now, limits)
        invariant timedOut + TimedOut(links, listed[..i], now, limits) == TimedOut(links, listed, now, limits)
      {
        i := i - 1;
        ghost var before := timedOut;
        LastScannedStep(links, listed, i, now, limits);
        var out := ScanOne(listed[i], now, world);
        timedOut := if out then timedOut + [listed[i]] else timedOut;
        TimedOutStep(links, listed, i, now, limits);
        Regroup(before, if out then [listed[i]] else [], TimedOut(links, listed[..i], now, limits));
      }
      assert listed[0..] == listed && listed[..0] == [];
      NoneTimedOut(links, now, limits);
    }

    method ScanOne(c: Connection, now: int, ghost world: set<Connection>) returns (out: bool)
      requires c in world
      modifies c
      ensures var links := old(LinksOf(world));
              LinksOf(world) == links[c := Scanned(links[c], now, limits)] && out == TimesOut(links[c], now, limits)
    {
      ghost var links := LinksOf(world);
      LinkAt(world, c);
      out := Look(c, now);
      assert LinksOf(world) == links[c := c.AsLink()];
    }

    method Look(c: Connection, now: int) returns (out: bool)
      modifies c
      ensures c.AsLink() == Scanned(old(c.AsLink()), now, limits) && out == TimesOut(old(c.AsLink()), now, limits)
    {
      if !c.helloReceived && now >= c.helloDeadline {
        return true;
      }
      if c.helloReceived && now - c.lastPingAt >= limits.interval {
        c.SetLastPingAt(now);
        c.MarkPingAwaitingPong();
        c.Offer(PingFrame(now), false);
      }
      out := now - c.lastSeen >= limits.timeout;
    }

    method GiveUpEach(hub: Hub, timedOut: seq<Connection>, ghost world: set<Connection>)
      requires hub.Valid(world) && forall c :: c in timedOut ==> c in world
      modifies this`pendingHellos, hub`connections, world
      ensures hub.Valid(world)
      ensures (hub.View(world), pendingHellos) == GiveUpAll(old(hub.View(world)), old(pendingHellos), timedOut)
    {
      hide Hub.Valid, Hub.View, LinksOf, GiveUp;
      ghost var h, pending := hub.View(world), pendingHellos;
      hub.ViewOf(world);
      for i := 0 to |timedOut|
        invariant hub.Valid(world)
        invariant (hub.View(world), pendingHellos) == GiveUpAll(h, pending, timedOut[..i])
      {
        assert timedOut[..i + 1][..i] == timedOut[..i];
        GiveUpOne(hub, timedOut[i], world);
      }
      assert timedOut[..|timedOut|] == timedOut;
    }

    method GiveUpOne(hub: Hub, c: Connection, ghost world: set<Connection>)
      requires hub.Valid(world) && c in world
      modifies this`pendingHellos, hub`connections, c
      ensures hub.Valid(world)
      ensures (hub.View(world), pendingHellos) == GiveUp(old(hub.View(world)), old(pendingHellos), c)
    {
      hub.ViewOf(world);
      LinkAt(world, c);
      hide Hub.Valid, Hub.View, LinksOf, TimeOutHello, Cancel;
      if !c.helloReceived {
        TimeOutIn(hub, c, world);
      } else {
        CancelConnection(c, hub, world);
      }
    }

    method TimeOutIn(hub: Hub, c: Connection, ghost world: set<Connection>)
      requires hub.Valid(world) && c in world && !c.helloReceived
      modifies this`pendingHellos, c
      ensures hub.Valid(world)
      ensures (hub.View(world), pendingHellos) == GiveUp(old(hub.View(world)), old(pendingHellos), c)
    {
      hide SeenIdRing.EntriesMatch, SeenIdRing.SlotsMatch, TokenBucket.IsLevel, TokenBucket.Paced, LinksOf, Distinct;
      LinkAt(world, c);
      TimeOutOne(c, world);
    }

    /** Drops the hub from the registry and cancels all its connections; a hub already replaced is left alone. */
    method RebuildHub(hub: Hub, ghost world: set<Connection>)
      requires hub.Valid(world) && registry.Valid()
      modifies registry, this`pendingHellos, hub`connections, world
      ensures hub.Valid(world) && registry.Valid()
      ensures var h := old(hub.View(world));
              var registered := hub.username in old(registry.hubs) && old(registry.hubs)[hub.username] == hub;
              && (forall c :: c in h.connections ==> c in h.links)
              && registry.hubs == (if registered then old(registry.hubs) - {hub.username} else old(registry.hubs))
              && (hub.View(world), pendingHellos) ==
                 if registered then CancelAll(h, old(pendingHellos), h.connections) else (h, old(pendingHellos))
    {
      hide Hub.Valid, Hub.View, LinksOf, CancelAll;
      hub.ViewOf(world);
      var removed := registry.Remove(hub);
      if removed {
        CancelEach(hub, hub.connections, world);
      }
    }

    method CancelEach(hub: Hub, cs: seq<Connection>, ghost world: set<Connection>)
      requires hub.Valid(world) && forall c :: c in cs ==> c in world
      modifies this`pendingHellos, hub`connections, world
      ensures hub.Valid(world)
      ensures (hub.View(world), pendingHellos) == CancelAll(old(hub.View(world)), old(pendingHellos), cs)
    {
      hide Hub.Valid, Hub.View, LinksOf, Cancel;
      ghost var h, pending := hub.View(world), pendingHellos;
      hub.ViewOf(world);
      for i := 0 to |cs|
        invariant hub.Valid(world)
        invariant (hub.View(world), pendingHellos) == CancelAll(h, pending, cs[..i])
      {
        assert cs[..i + 1][..i] == cs[..i];
        CancelConnection(cs[i], hub, world);
      }
      assert cs[..|cs|] == cs;
    }

    /** The last part of ScanHeartbeats: connections that have sent no hello by their deadline. */
    method ScanPending(now: int, ghost world: set<Connection>)
      requires forall c :: c in pendingHellos ==> c in world
      modifies this`pendingHellos, world
      ensures (LinksOf(world), pendingHellos) ==
              TimeOutHellos(old(LinksOf(world)), old(pendingHellos), Late(old(LinksOf(world)), old(pendingHellos), now))
    {
      hide LinksOf, HelloIsLate, TimeOutHello;
      ghost var links, pending := LinksOf(world), pendingHellos;
      var expired: seq<Connection> := [];
      for i := 0 to |pendingHellos|
        invariant pendingHellos == pending && LinksOf(world) == links
        invariant expired == Late(links, pending[..i], now)
      {
        assert pending[..i + 1][..i] == pending[..i];
        var c := pendingHellos[i];
        IsLate(world, c, now);
        if c.helloReceived {
          continue;
        }
        if now >= c.helloDeadline {
          expired := expired + [c];
        }
      }
      assert pending[..|pending|] == pending;
      for i := 0 to |expired|
        invariant (LinksOf(world), pendingHellos) == TimeOutHellos(links, pending, expired[..i])
      {
        assert expired[..i + 1][..i] == expired[..i];
        TimeOutOne(expired[i], world);
      }
      assert expired[..|expired|] == expired;
    }

    method TimeOutOne(c: Connection, ghost world: set<Connection>)
      requires c in world
      modifies this`pendingHellos, c
      ensures (LinksOf(world), pendingHellos) == TimeOutHello(old(LinksOf(world)), old(pendingHellos), c)
    {
      ghost var links := LinksOf(world);
      LinkAt(world, c);
      EnqueueHelloTimeout(c);
      assert LinksOf(world) == links[c := c.AsLink()];
      assert links[c := links[c]] == links;
    }
  }

  lemma IsLate(world: set<Connection>, c: Connection, now: int)
    requires c in world
    ensures HelloIsLate(LinksOf(world)[c], now) <==> !c.helloReceived && now >= c.helloDeadline
  {
  }

  lemma NoneScanned(links: map<Connection, Link>, now: int, limits: Limits)
    ensures ScannedLinks(links, [], now, limits) == links
  {
  }

  lemma NoneTimedOut(links: map<Connection, Link>, now: int, limits: Limits)
    ensures TimedOut(links, [], now, limits) == []
  {
  }

  lemma LastScannedStep(links: map<Connection, Link>, listed: seq<Connection>, i: nat, now: int, limits: Limits)
    requires Distinct(listed) && i < |listed| && listed[i] in links
    ensures var before := ScannedLinks(links, listed[i + 1..], now, limits);
            && before[listed[i]] == links[listed[i]]
            && ScannedLinks(links, listed[i..], now, limits) == before[listed[i] := Scanned(links[listed[i]], now, limits)]
  {
    hide Scanned;
    assert listed[i..] == [listed[i]] + listed[i + 1..];
    assert listed[i] !in listed[i + 1..];
  }

  lemma TimedOutStep(links: map<Connection, Link>, listed: seq<Connection>, i: nat, now: int, limits: Limits)
    requires i < |listed| && forall c :: c in listed ==> c in links
    ensures TimedOut(links, listed[..i + 1], now, limits) ==
            (if TimesOut(links[listed[i]], now, limits) then [listed[i]] else []) + TimedOut(links, listed[..i], now, limits)
  {
    assert listed[..i + 1][..i] == listed[..i];
  }

  lemma Regroup<T>(a: seq<T>, b: seq<T>, c: seq<T>)
    ensures a + b + c == a + (b + c)
  {
  }
}
