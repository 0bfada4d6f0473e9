/** What one heartbeat scan does to a hub and to the connections that still owe a hello, as functions on values, and
    what it keeps (internal/sync/server.go). */
module ScanSpec {
  import opened Base
  import opened Connections
  import opened HubSpec
  import opened HubInvariants
  import opened Heartbeat
  import HubRuns

  /** Every listed connection is looked at once. */
  ghost function ScannedLinks<C>(links: map<C, Link>, listed: seq<C>, now: int, limits: Limits): (r: map<C, Link>)
    ensures r.Keys == links.Keys
  {
    map c | c in links :: if c in listed then Scanned(links[c], now, limits) else links[c]
  }

  /** The connections given up, last listed first. */
  ghost function TimedOut<C>(links: map<C, Link>, listed: seq<C>, now: int, limits: Limits): (r: seq<C>)
    requires forall c :: c in listed ==> c in links
    ensures forall c :: c in r ==> c in listed
    decreases |listed|
  {
    if listed == [] then []
    else
      var n := |listed| - 1;
      (if TimesOut(links[listed[n]], now, limits) then [listed[n]] else []) + TimedOut(links, listed[..n], now, limits)
  }

  /** A connection without a hello gets a hello timeout, once; any other is cancelled. Either way it owes no hello. */
  ghost function GiveUp<C>(h: HubState<C>, pending: seq<C>, c: C): (r: (HubState<C>, seq<C>))
    requires c in h.links
    ensures r.0.links.Keys == h.links.Keys
  {
    var l := h.links[c];
    if l.helloReceived then (Cancel(h, c), Without(pending, c))
    else if l.helloTimeoutStarted || l.closed then (h, pending)
    else (h.(links := h.links[c := l.(helloTimeoutStarted := true)]), Without(pending, c))
  }

  ghost function GiveUpAll<C>(h: HubState<C>, pending: seq<C>, cs: seq<C>): (r: (HubState<C>, seq<C>))
    requires forall c :: c in cs ==> c in h.links
    ensures r.0.links.Keys == h.links.Keys
    decreases |cs|
  {
    if cs == [] then (h, pending)
    else
      var n := |cs| - 1;
      var (h1, pending1) := GiveUpAll(h, pending, cs[..n]);
      GiveUp(h1, pending1, cs[n])
  }

  ghost function ScanHub<C>(h: HubState<C>, pending: seq<C>, now: int, limits: Limits): (HubState<C>, seq<C>)
    requires forall c :: c in h.connections ==> c in h.links
  {
    GiveUpAll(h.(links := ScannedLinks(h.links, h.connections, now, limits)), pending, TimedOut(h.links, h.connections, now, limits))
  }

  /** A connection that is late with its hello gets a hello timeout, once. */
  ghost function TimeOutHello<C>(links: map<C, Link>, pending: seq<C>, c: C): (r: (map<C, Link>, seq<C>))
    requires c in links
    ensures r.0.Keys == links.Keys
  {
    var l := links[c];
    if l.helloTimeoutStarted || l.closed then (links, pending)
    else (links[c := l.(helloTimeoutStarted := true)], Without(pending, c))
  }

  ghost function TimeOutHellos<C>(links: map<C, Link>, pending: seq<C>, cs: seq<C>): (r: (map<C, Link>, seq<C>))
    requires forall c :: c in cs ==> c in links
    ensures r.0.Keys == links.Keys
    decreases |cs|
  {
    if cs == [] then (links, pending)
    else
      var n := |cs| - 1;
      var (links1, pending1) := TimeOutHellos(links, pending, cs[..n]);
      TimeOutHello(links1, pending1, cs[n])
  }

  /** Those of the list that are late with their hello, in order. */
  ghost function Late<C>(links: map<C, Link>, pending: seq<C>, now: int): (r: seq<C>)
    requires forall c :: c in pending ==> c in links
    ensures forall c :: c in r ==> c in pending && HelloIsLate(links[c], now)
    ensures forall c :: c in pending && HelloIsLate(links[c], now) ==> c in r
    decreases |pending|
  {
    if pending == [] then []
    else
      var n := |pending| - 1;
      assert pending == pending[..n] + [pending[n]];
      Late(links, pending[..n], now) + if HelloIsLate(links[pending[n]], now) then [pending[n]] else []
  }

  // A scan keeps the hub's invariant.

  lemma ScannedKeeps<C>(h: HubState<C>, cfg: Config, initialVersion: uint64, c: C, now: int, limits: Limits)
    requires Inv(h, cfg, initialVersion) && c in h.links
    ensures Inv(h.(links := h.links[c := Scanned(h.links[c], now, limits)]), cfg, initialVersion)
  {
    hide Inv, Offered;
    var l := h.links[c];
    var touched := l.(lastPingAt := now, pongAwaited := true);
    if Scanned(l, now, limits) == l {
      assert h.links[c := l] == h.links;
    } else {
      HubRuns.TouchKeeps(h, cfg, initialVersion, c, touched);
      var h1 := h.(links := h.links[c := touched]);
      HubRuns.EnqueueKeeps(h1, cfg, initialVersion, c, Delivery(PingFrame(now), false));
      assert h1.links[c := Offered(touched, Delivery(PingFrame(now), false))] ==
             h.links[c := Offered(touched, Delivery(PingFrame(now), false))];
    }
  }

  lemma ScannedStep<C>(links: map<C, Link>, listed: seq<C>, i: nat, now: int, limits: Limits)
    requires Distinct(listed) && i < |listed| && listed[i] in links
    ensures listed[i] in ScannedLinks(links, listed[..i], now, limits)
    ensures ScannedLinks(links, listed[..i], now, limits)[listed[i]] == links[listed[i]]
    ensures ScannedLinks(links, listed[..i + 1], now, limits) ==
            ScannedLinks(links, listed[..i], now, limits)[listed[i] := Scanned(links[listed[i]], now, limits)]
  {
    hide Scanned;
    assert listed[..i + 1] == listed[..i] + [listed[i]];
    assert listed[i] !in listed[..i];
  }

  lemma {:induction false} AllScannedKeeps<C>(h: HubState<C>, cfg: Config, initialVersion: uint64, i: nat, now: int, limits: Limits)
    requires Inv(h, cfg, initialVersion) && i <= |h.connections|
    requires Distinct(h.connections) && forall c :: c in h.connections ==> c in h.links
    ensures Inv(h.(links := ScannedLinks(h.links, h.connections[..i], now, limits)), cfg, initialVersion)
    decreases i
  {
    hide Inv, Scanned, Distinct;
    if i == 0 {
      assert ScannedLinks(h.links, h.connections[..0], now, limits) == h.links;
    } else {
      AllScannedKeeps(h, cfg, initialVersion, i - 1, now, limits);
      ScannedStep(h.links, h.connections, i - 1, now, limits);
      hide ScannedLinks;
      ScannedKeeps(h.(links := ScannedLinks(h.links, h.connections[..i - 1], now, limits)), cfg, initialVersion,
                   h.connections[i - 1], now, limits);
    }
  }

  lemma {:induction false} GiveUpKeeps<C>(h: HubState<C>, pending: seq<C>, cfg: Config, initialVersion: uint64, cs: seq<C>)
    requires Inv(h, cfg, initialVersion) && forall c :: c in cs ==> c in h.links
    ensures Inv(GiveUpAll(h, pending, cs).0, cfg, initialVersion)
    decreases |cs|
  {
    hide Inv, Cancel;
    if cs != [] {
      var n := |cs| - 1;
      GiveUpKeeps(h, pending, cfg, initialVersion, cs[..n]);
      var h1, c := GiveUpAll(h, pending, cs[..n]).0, cs[n];
      HubRuns.CancelKeeps(h1, cfg, initialVersion, c);
      HubRuns.TouchKeeps(h1, cfg, initialVersion, c, h1.links[c].(helloTimeoutStarted := true));
    }
  }

  /** A scan keeps everything a hub promises; in particular it costs no open connection a version. */
  lemma ScanKeeps<C>(h: HubState<C>, pending: seq<C>, cfg: Config, initialVersion: uint64, now: int, limits: Limits)
    requires Inv(h, cfg, initialVersion)
    ensures Distinct(h.connections) && forall c :: c in h.connections ==> c in h.links
    ensures Inv(ScanHub(h, pending, now, limits).0, cfg, initialVersion)
  {
    hide Recorded, Numbered, Complete, Recovering, AllUpToDate, Scanned;
    AllScannedKeeps(h, cfg, initialVersion, |h.connections|, now, limits);
    assert h.connections[..|h.connections|] == h.connections;
    hide Inv;
    GiveUpKeeps(h.(links := ScannedLinks(h.links, h.connections, now, limits)), pending, cfg, initialVersion,
                TimedOut(h.links, h.connections, now, limits));
  }

  // Whom a scan removes.

  lemma {:induction false} TimedOutIs<C>(links: map<C, Link>, listed: seq<C>, now: int, limits: Limits, c: C)
    requires forall c :: c in listed ==> c in links
    ensures c in TimedOut(links, listed, now, limits) <==> c in listed && TimesOut(links[c], now, limits)
    decreases |listed|
  {
    hide TimesOut;
    if listed != [] {
      var n := |listed| - 1;
      assert listed == listed[..n] + [listed[n]];
      TimedOutIs(links, listed[..n], now, limits, c);
    }
  }

  lemma CancelIs<C>(h: HubState<C>, c: C, x: C)
    requires Distinct(h.connections) && c in h.links && x in h.links
    ensures var h' := Cancel(h, c);
            && Distinct(h'.connections)
            && (x in h'.connections <==> x in h.connections && !(x == c && !h.links[c].closed))
            && h'.links.Keys == h.links.Keys
            && h'.links[x] == (if x == c then h.links[c].(closed := true) else h.links[x])
  {
    hide Without;
    WithoutKeeps(h.connections, c);
  }

  lemma {:induction false} GiveUpAllIs<C>(h: HubState<C>, pending: seq<C>, cs: seq<C>, x: C)
    requires Distinct(h.connections) && (forall c :: c in cs ==> c in h.links) && x in h.links
    ensures var h' := GiveUpAll(h, pending, cs).0;
            && Distinct(h'.connections)
            && (x in h'.connections <==> x in h.connections && !(x in cs && h.links[x].helloReceived && !h.links[x].closed))
            && h'.links[x].closed == (h.links[x].closed || (x in cs && h.links[x].helloReceived))
            && h'.links[x].helloReceived == h.links[x].helloReceived
    decreases |cs|
  {
    hide Cancel, Distinct, Without;
    if cs != [] {
      var n := |cs| - 1;
      assert cs == cs[..n] + [cs[n]];
      GiveUpAllIs(h, pending, cs[..n], x);
      CancelIs(GiveUpAll(h, pending, cs[..n]).0, cs[n], x);
    }
  }

  /** A scan unlists exactly the connections that have said hello, are silent for the timeout and are still open
      after their ping was queued. One that falls to a full queue, now or earlier, is closed but stays listed. */
  lemma ScanUnlistsExactly<C>(h: HubState<C>, pending: seq<C>, now: int, limits: Limits, c: C)
    requires Distinct(h.connections) && (forall x :: x in h.connections ==> x in h.links) && c in h.connections
    ensures var h' := ScanHub(h, pending, now, limits).0;
            var l := h.links[c];
            var silent := l.helloReceived && now - l.lastSeen >= limits.timeout;
            && c in h'.links
            && (c in h'.connections <==> !(silent && !Scanned(l, now, limits).closed))
            && h'.links[c].closed == (silent || Scanned(l, now, limits).closed)
  {
    var scanned := h.(links := ScannedLinks(h.links, h.connections, now, limits));
    var out := TimedOut(h.links, h.connections, now, limits);
    TimedOutIs(h.links, h.connections, now, limits, c);
    hide Distinct, TimedOut;
    GiveUpAllIs(scanned, pending, out, c);
  }

  lemma {:induction false} TimeOutHellosIs<C>(links: map<C, Link>, pending: seq<C>, cs: seq<C>, x: C)
    requires Distinct(pending) && (forall c :: c in cs ==> c in links) && x in links
    ensures var (links', pending') := TimeOutHellos(links, pending, cs);
            var starts := x in cs && !links[x].helloTimeoutStarted && !links[x].closed;
            && Distinct(pending')
            && (x in pending' <==> x in pending && !starts)
            && links'[x] == if starts then links[x].(helloTimeoutStarted := true) else links[x]
    decreases |cs|
  {
    hide Distinct, Without;
    if cs != [] {
      var n := |cs| - 1;
      assert cs == cs[..n] + [cs[n]];
      TimeOutHellosIs(links, pending, cs[..n], x);
      WithoutKeeps(TimeOutHellos(links, pending, cs[..n]).1, cs[n]);
    }
  }

  /** The scan of the pending hellos strikes off exactly the late ones whose timeout it starts. */
  lemma LateHellosGo<C>(links: map<C, Link>, pending: seq<C>, now: int, x: C)
    requires Distinct(pending) && (forall c :: c in pending ==> c in links) && x in pending
    ensures var (links', pending') := TimeOutHellos(links, pending, Late(links, pending, now));
            var starts := HelloIsLate(links[x], now) && !links[x].helloTimeoutStarted && !links[x].closed;
            && (x in pending' <==> !starts)
            && links'[x] == if starts then links[x].(helloTimeoutStarted := true) else links[x]
  {
    TimeOutHellosIs(links, pending, Late(links, pending, now), x);
  }

  // Cancelling every connection of a hub.

  ghost function CancelAll<C>(h: HubState<C>, pending: seq<C>, cs: seq<C>): (r: (HubState<C>, seq<C>))
    requires forall c :: c in cs ==> c in h.links
    ensures r.0.links.Keys == h.links.Keys
    decreases |cs|
  {
    if cs == [] then (h, pending)
    else
      var n := |cs| - 1;
      var (h1, pending1) := CancelAll(h, pending, cs[..n]);
      (Cancel(h1, cs[n]), Without(pending1, cs[n]))
  }

  lemma {:induction false} CancelAllIs<C>(h: HubState<C>, pending: seq<C>, cs: seq<C>, x: C)
    requires Distinct(h.connections) && (forall c :: c in cs ==> c in h.links) && x in h.links
    ensures var h' := CancelAll(h, pending, cs).0;
            && Distinct(h'.connections)
            && (x in h'.connections <==> x in h.connections && !(x in cs && !h.links[x].closed))
            && h'.links[x] == (if x in cs then h.links[x].(closed := true) else h.links[x])
    decreases |cs|
  {
    hide Cancel, Distinct, Without;
    if cs != [] {
      var n := |cs| - 1;
      assert cs == cs[..n] + [cs[n]];
      CancelAllIs(h, pending, cs[..n], x);
      CancelIs(CancelAll(h, pending, cs[..n]).0, cs[n], x);
    }
  }

  /** Cancelling the whole list closes every listed connection; only those closed before stay listed. */
  lemma RebuildClosesAll<C>(h: HubState<C>, pending: seq<C>, c: C)
    requires Distinct(h.connections) && (forall x :: x in h.connections ==> x in h.links) && c in h.connections
    ensures var h' := CancelAll(h, pending, h.connections).0;
            && c in h'.links && h'.links[c].closed
            && (c in h'.connections <==> h.links[c].closed)
  {
    CancelAllIs(h, pending, h.connections, c);
  }
}
