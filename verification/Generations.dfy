/** One user across the hubs of a process and across restarts (internal/sync/server.go, internal/hub/registry.go,
    internal/state/store.go): hubs are made from the stored version, recycled, rebuilt after a failed user loop, and
    made again after a restart from the file. */
module Generations {
  import opened Base
  import opened Messages
  import opened Connections
  import opened SnapshotElection
  import opened HubSpec
  import opened HubInvariants
  import opened HubRuns
  import opened StateStore
  import opened TokenBucket
  import SeenIdRing
  import HubOverflow

  /** `kept` is the store as far as this user goes, `given` the versions of all texts ever issued, and `initial` the
      version the current hub was made with. */
  datatype UserState<!C(==)> = UserState(cfg: Config, kept: Kept, hub: Option<HubState<C>>, initial: uint64, given: seq<uint64>)

  datatype Event<+C> =
    | Create                     // GetOrCreateHub finds none
    | Do(step: Step<C>)          // the current hub takes a step
    | Recycle                    // RemoveIfEmpty
    | Rebuild                    // RebuildHub
    | OthersSave                 // another user's hub saves a version
    | Flush(writes: bool)        // Store.Flush
    | Stop(writes: bool)         // Store.Stop
    | Restart(cfg: Config)       // the process ends and starts again from the file

  function Started<C>(cfg: Config, disk: uint64): UserState<C> {
    UserState(cfg, Kept(disk, disk, false, false), None, 0, [])
  }

  ghost predicate Possible<C>(s: UserState<C>, e: Event<C>) {
    match e
    case Create => s.hub.None?
    case Do(step) => s.hub.Some? && Listed(s.hub.value) && Enabled(s.hub.value, step)
    case Recycle => s.hub.Some? && s.hub.value.connections == [] && s.hub.value.jobs == []
    case Rebuild => s.hub.Some?
    case Restart(cfg) => ValidConfig(cfg)
    case _ => true
  }

  function VersionsOf(texts: seq<LatestText>): (vs: seq<uint64>)
    ensures |vs| == |texts|
    ensures forall i :: 0 <= i < |texts| ==> vs[i] == texts[i].version
  {
    seq(|texts|, i requires 0 <= i < |texts| => texts[i].version)
  }

  ghost function Happen<C>(s: UserState<C>, e: Event<C>): UserState<C>
    requires Possible(s, e)
  {
    match e
    case Create => s.(hub := Some(NewHub(s.cfg, s.kept.stored, map[])), initial := s.kept.stored)
    case Do(step) =>
      var h, h' := s.hub.value, Take(s.hub.value, s.cfg, step);
      var news := if |h.issued| <= |h'.issued| then h'.issued[|h.issued|..] else [];
      s.(hub := Some(h'), kept := if h'.stored == h.stored then s.kept else Saved(s.kept, h'.stored), given := s.given + VersionsOf(news))
    case Recycle => s.(hub := None)
    case Rebuild => s.(hub := None)
    case OthersSave => s.(kept := s.kept.(dirty := true))
    case Flush(writes) => s.(kept := Flushed(s.kept, writes))
    case Stop(writes) => s.(kept := StoppedWith(s.kept, writes))
    case Restart(cfg) => s.(cfg := cfg, kept := Reopened(s.kept), hub := None)
  }

  ghost predicate Increasing(vs: seq<uint64>) {
    forall i, j :: 0 <= i < j < |vs| ==> vs[i] < vs[j]
  }

  ghost predicate Sound<C>(s: UserState<C>) {
    && ValidConfig(s.cfg)
    && s.kept.disk <= s.kept.stored && (!s.kept.dirty ==> s.kept.disk == s.kept.stored)
    && Increasing(s.given) && (forall i :: 0 <= i < |s.given| ==> s.given[i] <= s.kept.stored)
    && (s.hub.Some? ==> Inv(s.hub.value, s.cfg, s.initial) && s.hub.value.version == s.kept.stored)
  }

  /** Texts issued by one step have versions above everything stored before. */
  lemma NewVersionsAreNew<C>(h: HubState<C>, h': HubState<C>, i: nat)
    requires Numbered(h) && Numbered(h') && Grows(h, h') && |h.issued| <= i < |h'.issued|
    ensures h.version < h'.issued[i].version <= h'.version
  {
  }

  lemma IncreasingAppend(vs: seq<uint64>, news: seq<uint64>, top: int)
    requires Increasing(vs) && Increasing(news)
    requires (forall i :: 0 <= i < |vs| ==> vs[i] <= top) && (forall i :: 0 <= i < |news| ==> top < news[i])
    ensures Increasing(vs + news)
  {
  }

  lemma IssuedAppend<C>(h: HubState<C>, h': HubState<C>, given: seq<uint64>)
    requires Numbered(h) && Numbered(h') && Grows(h, h')
    requires Increasing(given) && forall i :: 0 <= i < |given| ==> given[i] <= h.version
    ensures var all := given + VersionsOf(h'.issued[|h.issued|..]);
            Increasing(all) && forall i :: 0 <= i < |all| ==> all[i] <= h'.version
    ensures |h.issued| <= |h'.issued| && h.version <= h'.version
  {
    var news := VersionsOf(h'.issued[|h.issued|..]);
    forall i | 0 <= i < |news| ensures news[i] == h'.issued[|h.issued| + i].version && h.version < news[i] <= h'.version {
      NewVersionsAreNew(h, h', |h.issued| + i);
    }
    IncreasingAppend(given, news, h.version);
  }

  lemma DoKeeps<C>(s: UserState<C>, step: Step<C>)
    requires Sound(s) && Possible(s, Do(step))
    ensures Sound(Happen(s, Do(step)))
  {
    hide Enabled, Take, Listed, Inv, Grows, Numbered, Increasing;
    var h, h' := s.hub.value, Take(s.hub.value, s.cfg, step);
    StepKeeps(h, s.cfg, s.initial, step);
    StepGrows(h, s.cfg, s.initial, step);
    NumberedFrom(h, s.cfg, s.initial);
    NumberedFrom(h', s.cfg, s.initial);
    IssuedAppend(h, h', s.given);
  }

  lemma NumberedFrom<C>(h: HubState<C>, cfg: Config, initial: uint64)
    requires Inv(h, cfg, initial)
    ensures Numbered(h) && h.stored == h.version
  {
    hide Listed, Recorded, Complete, Recovering, AllUpToDate;
  }

  /** Every event keeps the user sound, except a restart that comes before everything is on disk. */
  lemma EventKeeps<C>(s: UserState<C>, e: Event<C>)
    requires Sound(s) && Possible(s, e) && (e.Restart? ==> !s.kept.dirty)
    ensures Sound(Happen(s, e))
    ensures e == Stop(true) && !s.kept.stopped ==> !Happen(s, e).kept.dirty
  {
    if e.Do? {
      DoKeeps(s, e.step);
    } else if e.Create? {
      NewHubIsFine<C>(s.cfg, s.kept.stored, map[]);
      hide Inv;
    } else {
      hide Inv;
    }
  }

  ghost predicate Runs<C>(s: UserState<C>, es: seq<Event<C>>)
    decreases |es|
  {
    hide Happen;
    es == [] || (Possible(s, es[0]) && Runs(Happen(s, es[0]), es[1..]))
  }

  ghost function After<C>(s: UserState<C>, es: seq<Event<C>>): UserState<C>
    requires Runs(s, es)
    decreases |es|
  {
    hide Happen;
    if es == [] then s else After(Happen(s, es[0]), es[1..])
  }

  /** Each restart comes right after the first stop of its process, and that stop's write succeeded. `saved` says
      whether the event just before was such a stop. */
  ghost predicate StopsWell<C>(s: UserState<C>, es: seq<Event<C>>, saved: bool)
    requires Runs(s, es)
    decreases |es|
  {
    hide Happen;
    es == [] || ((es[0].Restart? ==> saved) && StopsWell(Happen(s, es[0]), es[1..], es[0] == Stop(true) && !s.kept.stopped))
  }

  /** Over every run of hubs and well-stopped restarts versions given to clips strictly increase and are never
      reused, and the live hub's version is the stored one, carried by its latest text. */
  lemma {:induction false} VersionsAreNeverReused<C>(s: UserState<C>, es: seq<Event<C>>, saved: bool)
    requires Sound(s) && Runs(s, es) && StopsWell(s, es, saved) && (saved ==> !s.kept.dirty)
    ensures var s' := After(s, es);
            && Sound(s') && s.given <= s'.given && Increasing(s'.given) && s.kept.stored <= s'.kept.stored
            && (s'.hub.Some? ==>
                && s'.hub.value.version == s'.kept.stored == s'.hub.value.stored
                && (s'.hub.value.latest.Some? ==> s'.hub.value.latest.value.version == s'.kept.stored))
    decreases |es|
  {
    if es == [] {
      hide Listed, Recorded, Complete, Recovering, AllUpToDate;
    } else {
      hide Inv, Take, Listed, Enabled, Sound;
      EventKeeps(s, es[0]);
      GivenGrows(s, es[0]);
      hide Happen;
      VersionsAreNeverReused(Happen(s, es[0]), es[1..], es[0] == Stop(true) && !s.kept.stopped);
    }
  }

  lemma GivenGrows<C>(s: UserState<C>, e: Event<C>)
    requires Sound(s) && Possible(s, e) && (e.Restart? ==> !s.kept.dirty)
    ensures s.given <= Happen(s, e).given && s.kept.stored <= Happen(s, e).kept.stored
  {
    if e.Do? {
      var h, h' := s.hub.value, Take(s.hub.value, s.cfg, e.step);
      hide Enabled, Take, Listed, Recovering, Complete, AllUpToDate, Recorded, VersionsOf;
      StepKeeps(h, s.cfg, s.initial, e.step);
      StepGrows(h, s.cfg, s.initial, e.step);
      NumberedFrom(h', s.cfg, s.initial);
      hide Inv;
    } else {
      hide Inv, NewHub;
    }
  }

  lemma StartIsSound<C>(cfg: Config, disk: uint64)
    requires ValidConfig(cfg)
    ensures Sound<C>(Started(cfg, disk))
  {
  }

  /** From the first start of a process on whatever its file says. */
  lemma VersionsAreNeverReusedFromTheStart<C>(cfg: Config, disk: uint64, es: seq<Event<C>>)
    requires ValidConfig(cfg) && Runs(Started(cfg, disk), es) && StopsWell(Started(cfg, disk), es, false)
    ensures var s := After(Started(cfg, disk), es);
            && Increasing(s.given) && (forall i :: 0 <= i < |s.given| ==> s.given[i] > disk)
            && (s.hub.Some? ==>
                && s.hub.value.version == s.kept.stored
                && (s.hub.value.latest.Some? ==> s.hub.value.latest.value.version == s.kept.stored))
  {
    StartIsSound<C>(cfg, disk);
    hide Sound, Runs, After, StopsWell, Increasing;
    VersionsAreNeverReused(Started(cfg, disk), es, false);
    AboveTheStart(cfg, disk, es);
  }

  /** The start itself counts as given: nothing issued afterwards is at or below it. */
  lemma AboveTheStart<C>(cfg: Config, disk: uint64, es: seq<Event<C>>)
    requires ValidConfig(cfg) && Runs(Started(cfg, disk), es) && StopsWell(Started(cfg, disk), es, false)
    ensures var s := After(Started(cfg, disk), es); forall i :: 0 <= i < |s.given| ==> s.given[i] > disk
  {
    var marked: UserState<C> := Started(cfg, disk).(given := [disk]);
    assert Sound(marked);
    GivenIsIgnored(Started(cfg, disk), marked, es, false, [disk]);
    hide Sound, Runs, After, StopsWell, Increasing;
    VersionsAreNeverReused(marked, es, false);
    var s, m := After(Started(cfg, disk), es), After(marked, es);
    assert Increasing(m.given) && m.given == [disk] + s.given;
    FirstIsLeast(disk, s.given);
  }

  lemma FirstIsLeast(first: uint64, rest: seq<uint64>)
    requires Increasing([first] + rest)
    ensures forall i :: 0 <= i < |rest| ==> rest[i] > first
  {
    var all := [first] + rest;
    forall i | 0 <= i < |rest| ensures rest[i] > first {
      assert all[0] < all[i + 1];
    }
  }

  /** What was given before plays no part in what happens. */
  lemma {:induction false} GivenIsIgnored<C>(s: UserState<C>, m: UserState<C>, es: seq<Event<C>>, saved: bool, before: seq<uint64>)
    requires Runs(s, es) && StopsWell(s, es, saved) && m == s.(given := before + s.given)
    ensures Runs(m, es) && StopsWell(m, es, saved)
    ensures After(m, es) == After(s, es).(given := before + After(s, es).given)
    decreases |es|
  {
    hide Listed, Enabled, Take, NewHub, Inv;
    if es != [] {
      assert Possible(m, es[0]);
      var s1, m1 := Happen(s, es[0]), Happen(m, es[0]);
      GivenStep(s, m, es[0], before);
      hide Happen, Possible;
      GivenIsIgnored(s1, m1, es[1..], es[0] == Stop(true) && !s.kept.stopped, before);
    }
  }

  lemma GivenStep<C>(s: UserState<C>, m: UserState<C>, e: Event<C>, before: seq<uint64>)
    requires Possible(s, e) && Possible(m, e) && m == s.(given := before + s.given)
    ensures Happen(m, e) == Happen(s, e).(given := before + Happen(s, e).given)
  {
    hide Take, NewHub, VersionsOf, Listed, Enabled;
    if e.Do? {
      var h, h' := s.hub.value, Take(s.hub.value, s.cfg, e.step);
      var news := if |h.issued| <= |h'.issued| then h'.issued[|h.issued|..] else [];
      assert before + s.given + VersionsOf(news) == before + (s.given + VersionsOf(news));
    }
  }

  /** After a restart that lost versions, the texts of the next hub are new exactly if the version it recovered
      from its clients is at least the last one given before. */
  lemma LostVersionsComeBack<C>(s: UserState<C>, cfg: Config, h: HubState<C>)
    requires Sound(s) && s.given != []
    requires Inv(h, cfg, s.kept.disk) && h.issued != []
    ensures Increasing(s.given + VersionsOf(h.issued)) <==>
            Max(s.kept.disk, WinnerVersion(h.candidates)) >= s.given[|s.given| - 1]
  {
    hide Listed, Recorded, Complete, AllUpToDate, WinnerVersion;
    var top := s.given[|s.given| - 1];
    var base := Max(s.kept.disk, WinnerVersion(h.candidates));
    assert h.windowClosed && h.version - |h.issued| == base;
    var news := VersionsOf(h.issued);
    assert forall i :: 0 <= i < |news| ==> news[i] == base + 1 + i;
    var all := s.given + news;
    assert all[|s.given| - 1] == top && all[|s.given|] == base + 1;
    if base >= top { IncreasingAppend(s.given, news, top); }
  }

  // A version given out twice.

  /** A connection is made and joins when the window is due, a clip arrives and is processed. */
  function OneClip(link: Link, clip: ClientClip, now: int): seq<Step<int>> {
    [Step.Open(0, link), Join(0, now), Arrive(0, clip), Process(now)]
  }

  ghost predicate EmptyLink(link: Link) {
    !link.closed && link.log == [] && link.queue == [] && link.sent == []
  }

  lemma EmptyClose<C>(h: HubState<C>, cfg: Config, now: int)
    requires !h.windowClosed && h.recoveryQueue == [] && h.candidates == [] && AllKnown(h, h.recoveryQueue)
    ensures CloseWindow(h, cfg, now) == (WelcomeAll(h.(windowClosed := true)), false)
  {
    HubOverflow.NoCandidates();
    hide Elect, WelcomeAll;
    assert Restore(h) == h;
  }

  /** The hub just before its first clip is processed. */
  ghost predicate AboutToIssue(h: HubState<int>, cfg: Config, disk: uint64, clip: ClientClip) {
    && h.version == disk == h.stored && h.issued == [] && h.grants == [] && h.ring == [] && h.lastRefill == cfg.processStart
    && h.jobs == [ClipJob(0, clip)] && Listed(h) && 0 in h.links
  }

  /** The hub with one open connection that has not joined. */
  ghost function Opened(cfg: Config, disk: uint64, link: Link): HubState<int> {
    NewHub<int>(cfg, disk, map[]).(links := map[0 := link])
  }

  lemma OpenStep(cfg: Config, disk: uint64, link: Link)
    requires ValidConfig(cfg) && EmptyLink(link)
    ensures var h0 := NewHub<int>(cfg, disk, map[]);
            Listed(h0) && Enabled(h0, Step.Open(0, link)) && Take(h0, cfg, Step.Open(0, link)) == Opened(cfg, disk, link)
    ensures Inv(Opened(cfg, disk, link), cfg, disk)
  {
    var h0 := NewHub<int>(cfg, disk, map[]);
    NewHubIsFine<int>(cfg, disk, map[]);
    InvIsListed(h0, cfg, disk);
    hide Inv, Listed;
    StepKeeps(h0, cfg, disk, Step.Open(0, link));
    var none: map<int, Link> := map[];
    assert none[0 := link] == map[0 := link];
  }

  /** The hub after the join that also closed its window. */
  ghost predicate Joined(h: HubState<int>, cfg: Config, disk: uint64) {
    && Inv(h, cfg, disk) && h.windowClosed && 0 in h.links
    && h.version == disk == h.stored && h.issued == [] && h.grants == [] && h.ring == [] && h.lastRefill == cfg.processStart && h.jobs == []
  }

  lemma JoinStep(cfg: Config, disk: uint64, link: Link, now: int)
    requires ValidConfig(cfg) && EmptyLink(link) && now >= cfg.processStart + cfg.snapshotWindow
    requires Inv(Opened(cfg, disk, link), cfg, disk)
    ensures var h1 := Opened(cfg, disk, link);
            && Listed(h1) && Enabled(h1, Join(0, now)) && Joined(Take(h1, cfg, Join(0, now)), cfg, disk)
  {
    var h1 := Opened(cfg, disk, link);
    hide Inv, Listed, AddConnection;
    InvIsListed(h1, cfg, disk);
    StepKeeps(h1, cfg, disk, Join(0, now));
    JoinedAndClosed(h1, cfg, now);
  }

  lemma ArriveStep(h: HubState<int>, cfg: Config, disk: uint64, clip: ClientClip)
    requires Joined(h, cfg, disk)
    ensures Listed(h) && Enabled(h, Arrive(0, clip)) && AboutToIssue(Take(h, cfg, Arrive(0, clip)), cfg, disk, clip)
  {
    hide Inv, Listed;
    InvIsListed(h, cfg, disk);
    StepKeeps(h, cfg, disk, Arrive(0, clip));
    InvIsListed(Take(h, cfg, Arrive(0, clip)), cfg, disk);
  }

  lemma UntilTheClip(cfg: Config, disk: uint64, link: Link, clip: ClientClip, now: int)
    requires ValidConfig(cfg) && EmptyLink(link) && now >= cfg.processStart + cfg.snapshotWindow
    ensures var h0 := NewHub<int>(cfg, disk, map[]);
            && Listed(h0) && Enabled(h0, Step.Open(0, link))
            && var h1 := Take(h0, cfg, Step.Open(0, link));
            && Listed(h1) && Enabled(h1, Join(0, now))
            && var h2 := Take(h1, cfg, Join(0, now));
            && Listed(h2) && Enabled(h2, Arrive(0, clip))
            && var h3 := Take(h2, cfg, Arrive(0, clip));
            && AboutToIssue(h3, cfg, disk, clip)
            && h1.issued == h2.issued == [] && h1.stored == h2.stored == disk
  {
    hide Inv, Listed, Take, Enabled, AboutToIssue;
    OpenStep(cfg, disk, link);
    JoinStep(cfg, disk, link, now);
    ArriveStep(Take(Opened(cfg, disk, link), cfg, Join(0, now)), cfg, disk, clip);
  }

  lemma JoinedAndClosed(h: HubState<int>, cfg: Config, now: int)
    requires Knows(h, 0) && AllKnown(h, h.recoveryQueue) && !h.windowClosed && h.recoveryQueue == [] && h.candidates == []
    requires now >= cfg.processStart + cfg.snapshotWindow
    ensures var h' := AddConnection(h, cfg, 0, now).0;
            && h'.windowClosed && h'.links.Keys == h.links.Keys
            && h' == h.(connections := h'.connections, joinedAt := h'.joinedAt, links := h'.links, windowClosed := true, welcomed := true)
  {
    EmptyClose(Joining(h, 0), cfg, now);
    hide CloseWindow, Broadcast;
  }

  lemma TheClipIsIssued(h: HubState<int>, cfg: Config, disk: uint64, clip: ClientClip, now: int)
    requires ValidConfig(cfg) && AboutToIssue(h, cfg, disk, clip) && disk < MAX_UINT64 && cfg.processStart <= now
    ensures Enabled(h, Process(now))
    ensures var h' := Take(h, cfg, Process(now)); |h'.issued| == 1 && h'.issued[0].version == disk + 1 == h'.stored
  {
    hide InOrder;
    HubOverflow.EarnedIsPositive(cfg, now);
    var popped := h.(jobs := []);
    assert h.jobs[1..] == [] && Knows(popped, 0);
    hide Listed;
    IssuesOne(popped, cfg, disk, clip, now);
    hide Affordable, ApplyClip;
  }

  lemma IssuesOne(h: HubState<int>, cfg: Config, disk: uint64, clip: ClientClip, now: int)
    requires Knows(h, 0) && h.version == disk == h.stored && disk < MAX_UINT64 && h.issued == [] && h.ring == [] && h.grants == []
    requires h.lastRefill == cfg.processStart <= now && Affordable(cfg.clipBurst, cfg.clipRate, cfg.processStart, [], now)
    ensures var h' := ApplyClip(h, cfg, clip, 0, now).0; |h'.issued| == 1 && h'.issued[0].version == disk + 1 == h'.stored
  {
    assert SeenIdRing.LastCall(h.ring, clip.id) == -1;
    hide Affordable, SeenIdRing.LastCall, Broadcast, OfferTo;
  }

  function Life(link: Link, clip: ClientClip, now: int): seq<Event<int>> {
    [Create] + ([Do(Step.Open(0, link))] + ([Do(Join(0, now))] + ([Do(Arrive(0, clip))] + ([Do(Process(now))] + []))))
  }

  lemma RunsCons<C>(s: UserState<C>, e: Event<C>, rest: seq<Event<C>>)
    requires Possible(s, e) && Runs(Happen(s, e), rest)
    ensures Runs(s, [e] + rest) && After(s, [e] + rest) == After(Happen(s, e), rest)
  {
    hide Happen, Possible;
    assert ([e] + rest)[1..] == rest;
  }

  /** A step that issues nothing and saves nothing. */
  lemma QuietDo<C>(s: UserState<C>, step: Step<C>)
    requires s.hub.Some? && Listed(s.hub.value) && Enabled(s.hub.value, step)
    requires var h' := Take(s.hub.value, s.cfg, step); h'.issued == s.hub.value.issued == [] && h'.stored == s.hub.value.stored
    ensures Possible(s, Do(step)) && Happen(s, Do(step)) == s.(hub := Some(Take(s.hub.value, s.cfg, step)))
  {
    hide Take, Listed, Enabled;
    assert VersionsOf([]) == [];
  }

  /** A step that issues one text. */
  lemma IssuingDo<C>(s: UserState<C>, step: Step<C>, version: uint64)
    requires s.hub.Some? && Listed(s.hub.value) && Enabled(s.hub.value, step) && s.hub.value.issued == []
    requires var h' := Take(s.hub.value, s.cfg, step); |h'.issued| == 1 && h'.issued[0].version == version
    ensures Possible(s, Do(step))
    ensures var s' := Happen(s, Do(step)); s'.given == s.given + [version] && s'.kept.disk == s.kept.disk && s'.cfg == s.cfg
  {
    hide Take, Listed, Enabled;
    var h' := Take(s.hub.value, s.cfg, step);
    assert h'.issued[0..] == h'.issued && VersionsOf(h'.issued) == [version];
  }

  /** The life of a hub that issues one text: one more than the version it was made with, saved but not flushed. */
  lemma LifeGivesOne(s: UserState<int>, link: Link, clip: ClientClip, now: int)
    requires ValidConfig(s.cfg) && s.hub.None? && s.kept.stored < MAX_UINT64
    requires EmptyLink(link) && now >= s.cfg.processStart + s.cfg.snapshotWindow
    ensures var es := Life(link, clip, now);
            && Runs(s, es)
            && var s' := After(s, es);
            && s'.given == s.given + [s.kept.stored + 1] && s'.kept.disk == s.kept.disk && s'.cfg == s.cfg
  {
    hide Take, Listed, Enabled, Happen, Runs, After;
    var v := s.kept.stored;
    UntilTheClip(s.cfg, v, link, clip, now);
    var h0 := NewHub<int>(s.cfg, v, map[]);
    var s0 := s.(hub := Some(h0), initial := v);
    assert Happen(s, Create) == s0 by { CreateIs(s); }
    QuietDo(s0, Step.Open(0, link));
    var s1 := Happen(s0, Do(Step.Open(0, link)));
    QuietDo(s1, Join(0, now));
    var s2 := Happen(s1, Do(Join(0, now)));
    ArriveIsQuiet(s2, s.cfg, v, clip);
    var s3 := Happen(s2, Do(Arrive(0, clip)));
    TheClipIsIssued(s3.hub.value, s.cfg, v, clip, now);
    IssuingDo(s3, Process(now), v + 1);
    LifeRuns(s, s0, s1, s2, s3, link, clip, now);
  }

  lemma CreateIs(s: UserState<int>)
    requires s.hub.None?
    ensures Happen(s, Create) == s.(hub := Some(NewHub(s.cfg, s.kept.stored, map[])), initial := s.kept.stored)
  {
  }

  lemma ArriveIsQuiet(s: UserState<int>, cfg: Config, disk: uint64, clip: ClientClip)
    requires s.hub.Some? && s.cfg == cfg && Listed(s.hub.value) && Enabled(s.hub.value, Arrive(0, clip))
    requires s.hub.value.issued == [] && s.hub.value.stored == disk
    requires AboutToIssue(Take(s.hub.value, cfg, Arrive(0, clip)), cfg, disk, clip)
    ensures Possible(s, Do(Arrive(0, clip)))
    ensures Happen(s, Do(Arrive(0, clip))) == s.(hub := Some(Take(s.hub.value, cfg, Arrive(0, clip))))
  {
    hide Take, Listed, Enabled;
    QuietDo(s, Arrive(0, clip));
  }

  lemma LifeRuns(s: UserState<int>, s0: UserState<int>, s1: UserState<int>, s2: UserState<int>, s3: UserState<int>,
                 link: Link, clip: ClientClip, now: int)
    requires Possible(s, Create) && s0 == Happen(s, Create)
    requires Possible(s0, Do(Step.Open(0, link))) && s1 == Happen(s0, Do(Step.Open(0, link)))
    requires Possible(s1, Do(Join(0, now))) && s2 == Happen(s1, Do(Join(0, now)))
    requires Possible(s2, Do(Arrive(0, clip))) && s3 == Happen(s2, Do(Arrive(0, clip)))
    requires Possible(s3, Do(Process(now)))
    ensures Runs(s, Life(link, clip, now)) && After(s, Life(link, clip, now)) == Happen(s3, Do(Process(now)))
  {
    hide Happen, Possible;
    var r3 := [Do(Process(now))] + [];
    var r2 := [Do(Arrive(0, clip))] + r3;
    var r1 := [Do(Join(0, now))] + r2;
    var r0 := [Do(Step.Open(0, link))] + r1;
    RunsCons(s3, Do(Process(now)), []);
    hide Runs, After;
    RunsCons(s2, Do(Arrive(0, clip)), r3);
    RunsCons(s1, Do(Join(0, now)), r2);
    RunsCons(s0, Do(Step.Open(0, link)), r1);
    RunsCons(s, Create, r0);
  }

  lemma {:induction false} RunsAppend<C>(s: UserState<C>, a: seq<Event<C>>, b: seq<Event<C>>)
    requires Runs(s, a) && Runs(After(s, a), b)
    ensures Runs(s, a + b) && After(s, a + b) == After(After(s, a), b)
    decreases |a|
  {
    hide Happen, Possible;
    if a == [] {
      assert a + b == b;
    } else {
      assert (a + b)[1..] == a[1..] + b;
      RunsAppend(Happen(s, a[0]), a[1..], b);
    }
  }

  /** A process gives out a version, ends without a flush, starts again from its file, and gives the version out again. */
  lemma AVersionIsGivenTwice(cfg: Config, disk: uint64, link: Link, clip: ClientClip, now: int)
    requires ValidConfig(cfg) && disk < MAX_UINT64 && EmptyLink(link) && now >= cfg.processStart + cfg.snapshotWindow
    ensures var es := Life(link, clip, now) + ([Restart(cfg)] + Life(link, clip, now));
            Runs(Started(cfg, disk), es) && After(Started(cfg, disk), es).given == [disk + 1, disk + 1]
  {
    var s := Started<int>(cfg, disk);
    var life := Life(link, clip, now);
    LifeGivesOne(s, link, clip, now);
    var s1 := After(s, life);
    hide Runs, After, Life;
    assert Possible(s1, Restart(cfg));
    var s2 := Happen(s1, Restart(cfg));
    assert s2.kept.stored == disk && s2.hub.None? && s2.cfg == cfg && s2.given == [disk + 1];
    hide Possible, Happen;
    LifeGivesOne(s2, link, clip, now);
    RunsCons(s1, Restart(cfg), life);
    RunsAppend(s, life, [Restart(cfg)] + life);
  }
}
