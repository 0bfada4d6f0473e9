/** The heartbeat of one connection: what a scan does to it and what that means over timed runs
    (internal/sync/server.go, internal/models/context.go, internal/hosting/connection.go). */
module Heartbeat {
  import opened Base
  import opened Connections

  /** Heartbeat settings in nanoseconds; config.Validate wants the timeout above the interval. */
  datatype Limits = Limits(interval: int, timeout: int)

  predicate ValidLimits(limits: Limits) {
    0 < limits.interval < limits.timeout
  }

  predicate HelloIsLate(l: Link, now: int) {
    !l.helloReceived && now >= l.helloDeadline
  }

  predicate PingIsDue(l: Link, now: int, limits: Limits) {
    l.helloReceived && now - l.lastPingAt >= limits.interval
  }

  /** A connection after a scan looked at it. */
  function Scanned(l: Link, now: int, limits: Limits): Link {
    if !HelloIsLate(l, now) && PingIsDue(l, now, limits) then
      Offered(l.(lastPingAt := now, pongAwaited := true), Delivery(PingFrame(now), false))
    else l
  }

  /** Whether the scan gives the connection up. */
  predicate TimesOut(l: Link, now: int, limits: Limits) {
    HelloIsLate(l, now) || now - l.lastSeen >= limits.timeout
  }

  // Timed runs of one connection that has said hello.

  datatype Event =
    | Scan(at: int)
    | Pong(at: int)        // a pong is read
    | Seen(at: int)        // the user loop processes an accepted pong

  /** `pings` are the times of the pings, `accepted` the pongs that found one outstanding, `waiting` those of them
      still in the job queue. */
  datatype Beat = Beat(link: Link, pings: seq<int>, accepted: nat, waiting: nat, timedOut: bool)

  function Start(link: Link): Beat {
    Beat(link, [], 0, 0, false)
  }

  function Next(b: Beat, e: Event, limits: Limits): Beat {
    match e
    case Scan(t) =>
      b.(link := Scanned(b.link, t, limits),
         pings := if PingIsDue(b.link, t, limits) then b.pings + [t] else b.pings,
         timedOut := b.timedOut || TimesOut(b.link, t, limits))
    case Pong(_) =>
      if b.link.pongAwaited then b.(link := b.link.(pongAwaited := false), accepted := b.accepted + 1, waiting := b.waiting + 1) else b
    case Seen(t) => if b.waiting > 0 then b.(link := b.link.(lastSeen := t), waiting := b.waiting - 1) else b
  }

  function Played(b: Beat, es: seq<Event>, limits: Limits): Beat {
    if es == [] then b else Next(Played(b, es[..|es| - 1], limits), es[|es| - 1], limits)
  }

  /** Accepted pongs never outnumber pings. */
  lemma {:induction false} PongsNeverOutnumberPings(link: Link, es: seq<Event>, limits: Limits)
    requires link.helloReceived && !link.pongAwaited
    ensures var b := Played(Start(link), es, limits);
            && b.link.helloReceived
            && b.accepted + (if b.link.pongAwaited then 1 else 0) <= |b.pings|
            && b.waiting <= b.accepted
    decreases |es|
  {
    if es != [] { PongsNeverOutnumberPings(link, es[..|es| - 1], limits); }
  }

  // No false timeouts.

  ghost predicate Nondecreasing(start: int, es: seq<Event>) {
    && (forall i :: 0 <= i < |es| ==> start <= es[i].at)
    && (forall i, j :: 0 <= i <= j < |es| ==> es[i].at <= es[j].at)
  }

  /** The time of the last scan among the events, or the start. */
  function LastScan(start: int, es: seq<Event>): int {
    if es == [] then start
    else if es[|es| - 1].Scan? then es[|es| - 1].at
    else LastScan(start, es[..|es| - 1])
  }

  /** Scans are at most `d` apart, counted from the start. */
  ghost predicate ScansWithin(start: int, es: seq<Event>, d: int) {
    forall i :: 0 <= i < |es| && es[i].Scan? ==> es[i].at - LastScan(start, es[..i]) <= d
  }

  /** By the time of any scan, a ping that is at least `r` old has had a pong processed since it was sent. */
  ghost predicate PongsWithin(link: Link, es: seq<Event>, limits: Limits, r: int) {
    forall i, p :: 0 <= i < |es| && es[i].Scan? && p in Played(Start(link), es[..i], limits).pings && p + r <= es[i].at ==>
      AnsweredSince(link, es[..i], limits, p)
  }

  ghost predicate AnsweredSince(link: Link, es: seq<Event>, limits: Limits, p: int) {
    exists j :: 0 <= j < |es| && es[j].Seen? && p <= es[j].at && Played(Start(link), es[..j], limits).waiting > 0
  }

  function Previous(start: int, pings: seq<int>, k: nat): int
    requires k <= |pings|
  {
    if k == 0 then start else pings[k - 1]
  }

  /** The start and the pings are each less than `gap` apart. */
  ghost predicate PingsAreRegular(start: int, pings: seq<int>, gap: int) {
    forall k :: 0 <= k < |pings| ==> pings[k] - Previous(start, pings, k) < gap
  }

  /** The state between two events: the last ping is known, and the last scan found it younger than the interval. */
  ghost predicate Regular(b: Beat, start: int, lastScan: int, gap: int, limits: Limits) {
    && b.link.helloReceived
    && PingsAreRegular(start, b.pings, gap)
    && b.link.lastPingAt == Previous(start, b.pings, |b.pings|)
    && 0 <= lastScan - b.link.lastPingAt < limits.interval
  }

  lemma NextIsRegular(b: Beat, e: Event, start: int, lastScan: int, d: int, limits: Limits)
    requires ValidLimits(limits) && Regular(b, start, lastScan, limits.interval + d, limits)
    requires e.Scan? ==> lastScan <= e.at <= lastScan + d
    ensures Regular(Next(b, e, limits), start, if e.Scan? then e.at else lastScan, limits.interval + d, limits)
  {
    var b' := Next(b, e, limits);
    if b'.pings != b.pings {
      forall k | 0 <= k < |b'.pings| ensures b'.pings[k] - Previous(start, b'.pings, k) < limits.interval + d {
        if k < |b.pings| { assert Previous(start, b'.pings, k) == Previous(start, b.pings, k); }
      }
    }
  }

  lemma FrontKeeps(start: int, es: seq<Event>, d: int)
    requires es != [] && Nondecreasing(start, es)
    ensures Nondecreasing(start, es[..|es| - 1])
    ensures ScansWithin(start, es, d) ==> ScansWithin(start, es[..|es| - 1], d)
  {
    var front := es[..|es| - 1];
    assert forall i :: 0 <= i < |front| ==> front[i] == es[i] && front[..i] == es[..i];
  }

  lemma {:induction false} LastScanIsPast(start: int, es: seq<Event>)
    requires Nondecreasing(start, es)
    ensures start <= LastScan(start, es)
    ensures es != [] ==> LastScan(start, es) <= es[|es| - 1].at
    decreases |es|
  {
    if es != [] {
      FrontKeeps(start, es, 0);
      LastScanIsPast(start, es[..|es| - 1]);
    }
  }

  lemma {:induction false} PlayedIsRegular(link: Link, es: seq<Event>, limits: Limits, d: int)
    requires link.helloReceived && ValidLimits(limits) && Nondecreasing(link.lastPingAt, es) && ScansWithin(link.lastPingAt, es, d)
    ensures Regular(Played(Start(link), es, limits), link.lastPingAt, LastScan(link.lastPingAt, es), limits.interval + d, limits)
    decreases |es|
  {
    hide Next, Regular;
    var start := link.lastPingAt;
    if es == [] {
      StartIsRegular(link, limits, d);
    } else {
      var n := |es| - 1;
      var front := es[..n];
      FrontKeeps(start, es, d);
      PlayedIsRegular(link, front, limits, d);
      LastScanIsPast(start, front);
      NextIsRegular(Played(Start(link), front, limits), es[n], start, LastScan(start, front), d, limits);
    }
  }

  lemma StartIsRegular(link: Link, limits: Limits, d: int)
    requires link.helloReceived && ValidLimits(limits)
    ensures Regular(Start(link), link.lastPingAt, link.lastPingAt, limits.interval + d, limits)
  {
  }

  lemma {:induction false} SeenOnlyGrows(link: Link, es: seq<Event>, limits: Limits, p: int)
    requires Nondecreasing(link.lastSeen, es)
    ensures var seen := Played(Start(link), es, limits).link.lastSeen;
            && link.lastSeen <= seen && (es != [] ==> seen <= es[|es| - 1].at)
            && (AnsweredSince(link, es, limits, p) ==> seen >= p)
    decreases |es|
  {
    hide AnsweredSince;
    if es == [] {
      AnsweredNever(link, limits, p);
    } else {
      var n := |es| - 1;
      var front := es[..n];
      FrontKeeps(link.lastSeen, es, 0);
      SeenOnlyGrows(link, front, limits, p);
      if AnsweredSince(link, es, limits, p) { AnsweredStep(link, es, limits, p); }
      NextSeen(Played(Start(link), front, limits), es[n], limits);
    }
  }

  lemma AnsweredNever(link: Link, limits: Limits, p: int)
    ensures !AnsweredSince(link, [], limits, p)
  {
  }

  lemma AnsweredStep(link: Link, es: seq<Event>, limits: Limits, p: int)
    requires es != [] && AnsweredSince(link, es, limits, p)
    ensures var n := |es| - 1;
            || AnsweredSince(link, es[..n], limits, p)
            || (es[n].Seen? && p <= es[n].at && Played(Start(link), es[..n], limits).waiting > 0)
  {
    hide Played;
    var n := |es| - 1;
    var j :| 0 <= j < |es| && es[j].Seen? && p <= es[j].at && Played(Start(link), es[..j], limits).waiting > 0;
    if j < n { assert es[..n][j] == es[j] && es[..n][..j] == es[..j]; }
  }

  lemma NextSeen(b: Beat, e: Event, limits: Limits)
    ensures Next(b, e, limits).link.lastSeen == if e.Seen? && b.waiting > 0 then e.at else b.link.lastSeen
  {
  }

  /** The latest moment, a ping at least `r` old or the start, that must have been answered by `now`; it is not
      further back than `r` and one ping gap. */
  lemma RecentBase(start: int, pings: seq<int>, gap: int, r: int, now: int) returns (base: int)
    requires PingsAreRegular(start, pings, gap) && 0 <= r
    requires now - Previous(start, pings, |pings|) < gap
    ensures base == start || (base in pings && base + r <= now)
    ensures now - base < gap + r
    decreases |pings|
  {
    if pings == [] {
      return start;
    }
    var last := pings[|pings| - 1];
    if last + r <= now {
      return last;
    }
    base := OlderBase(start, pings, gap, r, now);
  }

  lemma {:induction false} OlderBase(start: int, pings: seq<int>, gap: int, r: int, now: int) returns (base: int)
    requires PingsAreRegular(start, pings, gap) && pings != [] && now < pings[|pings| - 1] + r
    ensures base == start || (base in pings && base + r <= now)
    ensures now - base < gap + r
    decreases |pings|
  {
    var n := |pings| - 1;
    assert pings[n] - Previous(start, pings, n) < gap;
    if n == 0 {
      return start;
    }
    if pings[n - 1] + r <= now {
      return pings[n - 1];
    }
    assert forall k :: 0 <= k <= n ==> Previous(start, pings[..n], k) == Previous(start, pings, k);
    base := OlderBase(start, pings[..n], gap, r, now);
  }

  /** What the run has to keep to: its times, its scans and its answers. */
  ghost predicate Prompt(link: Link, es: seq<Event>, limits: Limits, d: int, r: int) {
    && link.lastPingAt <= link.lastSeen && Nondecreasing(link.lastSeen, es)
    && ScansWithin(link.lastPingAt, es, d) && PongsWithin(link, es, limits, r)
  }

  /** If scans are at most d apart, every ping is answered within r, and interval + d + r is below the timeout, then
      no scan of the run times the connection out. */
  lemma {:induction false} PromptConnectionsStay(link: Link, es: seq<Event>, limits: Limits, d: int, r: int)
    requires link.helloReceived && ValidLimits(limits) && 0 <= d && 0 <= r
    requires Prompt(link, es, limits, d, r)
    requires limits.interval + d + r < limits.timeout
    ensures !Played(Start(link), es, limits).timedOut
    decreases |es|
  {
    hide Prompt, TimesOut;
    if es != [] {
      PromptFront(link, es, limits, d, r);
      PromptConnectionsStay(link, es[..|es| - 1], limits, d, r);
      if es[|es| - 1].Scan? {
        ScanIsInTime(link, es, limits, d, r);
      }
    }
  }

  lemma PromptFront(link: Link, es: seq<Event>, limits: Limits, d: int, r: int)
    requires es != [] && Prompt(link, es, limits, d, r)
    ensures Prompt(link, es[..|es| - 1], limits, d, r)
  {
    hide Played, AnsweredSince;
    var front := es[..|es| - 1];
    FrontKeeps(link.lastSeen, es, d);
    FrontKeeps(link.lastPingAt, es, d);
    assert forall i :: 0 <= i < |front| ==> front[i] == es[i] && front[..i] == es[..i];
  }

  lemma ScanIsInTime(link: Link, es: seq<Event>, limits: Limits, d: int, r: int)
    requires es != [] && es[|es| - 1].Scan?
    requires link.helloReceived && ValidLimits(limits) && 0 <= d && 0 <= r
    requires Prompt(link, es, limits, d, r)
    requires limits.interval + d + r < limits.timeout
    ensures !TimesOut(Played(Start(link), es[..|es| - 1], limits).link, es[|es| - 1].at, limits)
  {
    hide Played, LastScan, AnsweredSince;
    var n := |es| - 1;
    var front, now := es[..n], es[n].at;
    FrontKeeps(link.lastSeen, es, d);
    FrontKeeps(link.lastPingAt, es, d);
    var b := Played(Start(link), front, limits);
    PlayedIsRegular(link, front, limits, d);
    assert now - LastScan(link.lastPingAt, front) <= d;
    var base := RecentBase(link.lastPingAt, b.pings, limits.interval + d, r, now);
    SeenOnlyGrows(link, front, limits, base);
    if base != link.lastPingAt {
      assert AnsweredSince(link, es[..n], limits, base);
    }
  }

  // Silence.

  /** A connection none of whose pongs is processed, whether or not any is read, is timed out by the first scan at
      or after its last sign of life plus the timeout, and by no earlier one. */
  lemma {:induction false} SilentConnectionsEnd(link: Link, es: seq<Event>, limits: Limits)
    requires link.helloReceived && forall i :: 0 <= i < |es| ==> !es[i].Seen?
    ensures var b := Played(Start(link), es, limits);
            && b.link.lastSeen == link.lastSeen && b.link.helloReceived
            && (b.timedOut <==> exists i :: 0 <= i < |es| && es[i].Scan? && es[i].at >= link.lastSeen + limits.timeout)
    decreases |es|
  {
    if es != [] {
      var n := |es| - 1;
      SilentConnectionsEnd(link, es[..n], limits);
      assert forall i :: 0 <= i < n ==> es[..n][i] == es[i];
    }
  }
}
