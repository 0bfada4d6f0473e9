/** Whole runs of one hub: connections come, go and fall behind, clips and hellos arrive, jobs are processed and
    the window closes, in any order (internal/hub/hub.go, internal/hosting/connection.go). */
module HubRuns {
  import opened Base
  import opened Messages
  import opened Connections
  import opened SeenIdRing
  import opened TokenBucket
  import opened SnapshotElection
  import opened HubSpec
  import opened HubInvariants

  datatype Step<+C> =
    | Open(c: C, link: Link)               // a connection is made
    | Join(c: C, now: int)                 // AddConnection
    | Leave(c: C)                          // RemoveConnection
    | CancelIt(c: C)                       // CancelConnection, EnqueueImmediateClose
    | Fall(c: C)                           // marked closed elsewhere, still listed
    | Send(c: C)                           // the send loop takes a frame
    | Enqueue(c: C, other: Frame)          // a ping, a goodbye or an error
    | Touch(c: C, link: Link)              // heartbeat and hello fields
    | Arrive(c: C, clip: ClientClip)       // a clip is read
    | Push(job: Job<C>)                    // a hello, pong or disconnect job
    | Process(now: int)                    // the user loop takes a job
    | Close(now: int)                      // CloseRecoveryWindow

  /** Only the heartbeat and hello fields differ. */
  ghost predicate OnlyTouched(l: Link, l': Link) {
    l' == l.(helloReceived := l'.helloReceived, helloTimeoutStarted := l'.helloTimeoutStarted, pongAwaited := l'.pongAwaited,
             lastSeen := l'.lastSeen, lastPingAt := l'.lastPingAt)
  }

  ghost predicate Enabled<C>(h: HubState<C>, step: Step<C>) {
    match step
    case Open(c, link) => c !in h.links && c !in h.joinedAt && link.log == [] && link.queue == [] && link.sent == []
    case Join(c, _) => c in h.links && c !in h.joinedAt && c !in h.connections && h.links[c].log == []
    case Leave(c) => true
    case CancelIt(c) => c in h.links
    case Fall(c) => c in h.links
    case Send(c) => c in h.links && h.links[c].queue != []
    case Enqueue(c, other) => c in h.links && (other.PingFrame? || other.ByeFrame? || other.ErrorFrame?)
    case Touch(c, link) => c in h.links && OnlyTouched(h.links[c], link)
    case Arrive(c, clip) => c in h.links
    case Push(job) => !job.ClipJob? && ConnectionOf(job) in h.links
    case Process(_) => h.jobs != []
    case Close(_) => true
  }

  /** The hub after a step. A panic ends the step where it happened. */
  ghost function Take<C>(h: HubState<C>, cfg: Config, step: Step<C>): HubState<C>
    requires Listed(h) && Enabled(h, step)
  {
    match step
    case Open(c, link) => h.(links := h.links[c := link])
    case Join(c, now) => AddConnection(h, cfg, c, now).0
    case Leave(c) => RemoveConnection(h, c)
    case CancelIt(c) => Cancel(h, c)
    case Fall(c) => h.(links := h.links[c := h.links[c].(closed := true)])
    case Send(c) => h.(links := h.links[c := Advanced(h.links[c])])
    case Enqueue(c, other) => h.(links := OfferTo(h.links, c, Delivery(other, false)))
    case Touch(c, link) => h.(links := h.links[c := link])
    case Arrive(c, clip) => Receive(h, cfg, clip, c)
    case Push(job) => h.(jobs := h.jobs + [job])
    case Process(now) => ProcessJob(h.(jobs := h.jobs[1..]), cfg, h.jobs[0], now).0
    case Close(now) => CloseWindow(h, cfg, now).0
  }

  // Each kind of step keeps the invariant.

  /** Replacing a connection's view by one that has the same log, or is closed. */
  lemma LinkKeeps<C>(h: HubState<C>, cfg: Config, initialVersion: uint64, c: C, l: Link)
    requires Inv(h, cfg, initialVersion) && InOrder(l)
    requires c in h.links ==> l.closed || (l.log == h.links[c].log && l.closed == h.links[c].closed)
    requires c !in h.links ==> c !in h.connections
    ensures Inv(h.(links := h.links[c := l]), cfg, initialVersion)
  {
    hide InOrder, Numbered, Recorded, FreshTexts, Believed;
    var h' := h.(links := h.links[c := l]);
    NumberedOnly(h, h');
    RecordedOnly(h, h', cfg);
  }

  lemma LeaveKeeps<C>(h: HubState<C>, cfg: Config, initialVersion: uint64, c: C)
    requires Inv(h, cfg, initialVersion)
    ensures Inv(RemoveConnection(h, c), cfg, initialVersion)
  {
    hide InOrder, Numbered, Recorded, Told, UpToDate, Without;
    var h' := RemoveConnection(h, c);
    WithoutKeeps(h.connections, c);
    NumberedOnly(h, h');
    RecordedOnly(h, h', cfg);
  }

  lemma CancelKeeps<C>(h: HubState<C>, cfg: Config, initialVersion: uint64, c: C)
    requires Inv(h, cfg, initialVersion) && c in h.links
    ensures Inv(Cancel(h, c), cfg, initialVersion)
  {
    assert InOrder(h.links[c].(closed := true)) by { assert InOrder(h.links[c]); }
    if !h.links[c].closed {
      LinkKeeps(h, cfg, initialVersion, c, h.links[c].(closed := true));
      LeaveKeeps(h.(links := h.links[c := h.links[c].(closed := true)]), cfg, initialVersion, c);
      hide Inv;
    }
  }

  lemma EnqueueKeeps<C>(h: HubState<C>, cfg: Config, initialVersion: uint64, c: C, d: Delivery)
    requires Inv(h, cfg, initialVersion) && c in h.links && FreshIn(d) == [] && !d.frame.Welcome?
    ensures Inv(h.(links := OfferTo(h.links, c, d)), cfg, initialVersion)
  {
    QuietKeeps(h, cfg, c, d);
    hide Core, AllUpToDate, OfferTo;
  }

  /** What the two ways of adding to the recovery state and the job queue leave to check. */
  lemma QueueKeeps<C>(h: HubState<C>, cfg: Config, initialVersion: uint64, clip: ClientClip, c: C)
    requires Inv(h, cfg, initialVersion) && c in h.links
    ensures Inv(ClassifyClip(h, cfg, clip, c).0, cfg, initialVersion)
  {
    hide InOrder, Numbered, Recorded, Told, UpToDate;
    NumberedOnly(h, ClassifyClip(h, cfg, clip, c).0);
    RecordedOnly(h, ClassifyClip(h, cfg, clip, c).0, cfg);
  }

  lemma PushKeeps<C>(h: HubState<C>, cfg: Config, initialVersion: uint64, job: Job<C>)
    requires Inv(h, cfg, initialVersion) && ConnectionOf(job) in h.links && (job.ClipJob? ==> h.windowClosed)
    ensures Inv(h.(jobs := h.jobs + [job]), cfg, initialVersion)
  {
    hide InOrder, Numbered, Recorded, Told, UpToDate;
    var h' := h.(jobs := h.jobs + [job]);
    NumberedOnly(h, h');
    RecordedOnly(h, h', cfg);
  }

  lemma PopKeeps<C>(h: HubState<C>, cfg: Config, initialVersion: uint64)
    requires Inv(h, cfg, initialVersion) && h.jobs != []
    ensures Inv(h.(jobs := h.jobs[1..]), cfg, initialVersion)
    ensures ConnectionOf(h.jobs[0]) in h.links && (h.jobs[0].ClipJob? ==> h.windowClosed)
  {
    hide InOrder, Numbered, Recorded, Told, UpToDate;
    var h' := h.(jobs := h.jobs[1..]);
    NumberedOnly(h, h');
    RecordedOnly(h, h', cfg);
  }

  lemma ArriveKeeps<C>(h: HubState<C>, cfg: Config, initialVersion: uint64, clip: ClientClip, c: C)
    requires Inv(h, cfg, initialVersion) && c in h.links
    ensures Inv(Receive(h, cfg, clip, c), cfg, initialVersion)
  {
    hide Inv;
    QueueKeeps(h, cfg, initialVersion, clip, c);
    var next := ClassifyClip(h, cfg, clip, c).0;
    if h.windowClosed { PushKeeps(next, cfg, initialVersion, ClipJob(c, clip)); }
    CancelKeeps(next, cfg, initialVersion, c);
  }

  lemma SnapshotKeeps<C>(h: HubState<C>, cfg: Config, initialVersion: uint64, hello: ClientHello)
    requires Inv(h, cfg, initialVersion)
    ensures Inv(AcceptSnapshot(h, cfg, hello), cfg, initialVersion)
  {
    hide Core, AllUpToDate;
    var h' := AcceptSnapshot(h, cfg, hello);
    assert (h.candidates + [hello])[..|h.candidates|] == h.candidates;
    IgnoresCandidates(h, cfg, h'.candidates, h'.snapshotBytes);
  }

  lemma IgnoresCandidates<C>(h: HubState<C>, cfg: Config, candidates: seq<ClientHello>, bytes: int)
    ensures var h' := h.(candidates := candidates, snapshotBytes := bytes);
            (Core(h, cfg) ==> Core(h', cfg)) && (AllUpToDate(h) ==> AllUpToDate(h'))
  {
    hide InOrder, Told, UpToDate, Paced;
  }

  /** A clip applied after the window has closed. */
  lemma ClipKeeps<C>(h: HubState<C>, cfg: Config, initialVersion: uint64, clip: ClientClip, sender: C, now: int)
    requires Inv(h, cfg, initialVersion) && sender in h.links && h.windowClosed
    ensures Inv(ApplyClip(h, cfg, clip, sender, now).0, cfg, initialVersion)
  {
    hide InOrder, Numbered, Recorded, Complete, AllUpToDate, PayloadBytes, ApplyClip, Distinct;
    assert Knows(h, sender);
    hide Core, Knows;
    ApplyKeeps(h, cfg, clip, sender, now);
    ApplyCounts(h, cfg, clip, sender, now);
  }

  lemma ProcessKeeps<C>(h: HubState<C>, cfg: Config, initialVersion: uint64, now: int)
    requires Inv(h, cfg, initialVersion) && h.jobs != []
    ensures Knows(h, ConnectionOf(h.jobs[0]))
    ensures Inv(ProcessJob(h.(jobs := h.jobs[1..]), cfg, h.jobs[0], now).0, cfg, initialVersion)
  {
    PopKeeps(h, cfg, initialVersion);
    var popped := h.(jobs := h.jobs[1..]);
    var c := ConnectionOf(h.jobs[0]);
    var l := h.links[c];
    assert InOrder(l) ==> InOrder(l.(lastSeen := now)) && InOrder(l.(helloReceived := true));
    assert Knows(h, c) && InOrder(l);
    hide Inv, Knows, InOrder;
    match h.jobs[0]
    case ClipJob(sender, clip) => ClipKeeps(popped, cfg, initialVersion, clip, sender, now);
    case PongJob(_) => LinkKeeps(popped, cfg, initialVersion, c, l.(lastSeen := now));
    case HelloJob(_, hello) =>
      LinkKeeps(popped, cfg, initialVersion, c, l.(helloReceived := true));
      SnapshotKeeps(popped.(links := popped.links[c := l.(helloReceived := true)]), cfg, initialVersion, hello);
    case DisconnectJob(_) => CancelKeeps(popped, cfg, initialVersion, c);
  }

  ghost function Joining<C>(h: HubState<C>, c: C): HubState<C> {
    h.(connections := h.connections + [c], joinedAt := h.joinedAt[c := |h.issued|])
  }

  /** A new connection missed everything so far; until it is welcomed it is behind. */
  lemma JoiningKeeps<C>(h: HubState<C>, cfg: Config, initialVersion: uint64, c: C)
    requires Inv(h, cfg, initialVersion) && c in h.links && c !in h.joinedAt && c !in h.connections && h.links[c].log == []
    ensures Core(Joining(h, c), cfg)
    ensures !h.windowClosed ==> Inv(Joining(h, c), cfg, initialVersion)
  {
    hide InOrder, Numbered, Recorded, UpToDate;
    var h' := Joining(h, c);
    NumberedOnly(h, h');
    RecordedOnly(h, h', cfg);
    assert h.issued[|h.issued|..] == [] == FreshTexts(h.links[c].log);
  }

  lemma WelcomedKeeps<C>(h: HubState<C>, cfg: Config, initialVersion: uint64, c: C)
    requires Inv(h, cfg, initialVersion) && h.windowClosed
    requires c in h.links && c !in h.joinedAt && c !in h.connections && h.links[c].log == []
    ensures Inv(Joining(h, c).(links := OfferTo(h.links, c, Delivery(Welcome(h.latest), false))), cfg, initialVersion)
  {
    hide Told, UpToDate, PayloadBytes, WinnerVersion, Numbered, Recorded, Complete, InOrder;
    JoiningKeeps(h, cfg, initialVersion, c);
    WelcomedCore(Joining(h, c), cfg, c);
    hide Core, OfferTo;
  }

  lemma WelcomedCore<C>(h: HubState<C>, cfg: Config, c: C)
    requires Core(h, cfg) && c in h.links
    ensures var h' := h.(links := OfferTo(h.links, c, Delivery(Welcome(h.latest), false)));
            && Core(h', cfg)
            && UpToDate(h'.links[c], h.latest)
            && (forall x :: x in h.links && x != c ==> h'.links[x] == h.links[x])
  {
    hide Told, UpToDate, InOrder, Offered, Numbered, Recorded;
    var h' := h.(links := OfferTo(h.links, c, Delivery(Welcome(h.latest), false)));
    NumberedOnly(h, h');
    RecordedOnly(h, h', cfg);
    OfferedInOrder(h.links[c], Delivery(Welcome(h.latest), false));
    forall texts ensures Told(h.links[c], texts) ==> Told(h'.links[c], texts) {
      WelcomeOffer(h.links[c], texts, h.latest);
    }
    WelcomeOffer(h.links[c], [], h.latest);
  }

  lemma JoinKeeps<C>(h: HubState<C>, cfg: Config, initialVersion: uint64, c: C, now: int)
    requires Inv(h, cfg, initialVersion) && c in h.links && c !in h.joinedAt && c !in h.connections && h.links[c].log == []
    ensures Inv(AddConnection(h, cfg, c, now).0, cfg, initialVersion)
  {
    if h.windowClosed {
      WelcomedKeeps(h, cfg, initialVersion, c);
    } else {
      JoiningKeeps(h, cfg, initialVersion, c);
      hide Inv, CloseWindow;
      CloseKeeps(Joining(h, c), cfg, initialVersion, now);
    }
  }

  /** Every step keeps the invariant. */
  lemma StepKeeps<C>(h: HubState<C>, cfg: Config, initialVersion: uint64, step: Step<C>)
    requires Inv(h, cfg, initialVersion) && Enabled(h, step)
    ensures Inv(Take(h, cfg, step), cfg, initialVersion)
  {
    hide Inv, Told, Numbered, Recorded, Complete, AllUpToDate, Frames;
    match step
    case Open(c, link) => OpenKeeps(h, cfg, initialVersion, c, link);
    case Join(c, now) => JoinKeeps(h, cfg, initialVersion, c, now);
    case Leave(c) => LeaveKeeps(h, cfg, initialVersion, c);
    case CancelIt(c) => CancelKeeps(h, cfg, initialVersion, c);
    case Fall(c) => FallKeeps(h, cfg, initialVersion, c);
    case Send(c) => SendKeeps(h, cfg, initialVersion, c);
    case Enqueue(c, other) => EnqueueKeeps(h, cfg, initialVersion, c, Delivery(other, false));
    case Touch(c, link) => TouchKeeps(h, cfg, initialVersion, c, link);
    case Arrive(c, clip) => ArriveKeeps(h, cfg, initialVersion, clip, c);
    case Push(job) => PushKeeps(h, cfg, initialVersion, job);
    case Process(now) => ProcessKeeps(h, cfg, initialVersion, now);
    case Close(now) => CloseKeeps(h, cfg, initialVersion, now);
  }

  lemma OpenKeeps<C>(h: HubState<C>, cfg: Config, initialVersion: uint64, c: C, link: Link)
    requires Inv(h, cfg, initialVersion) && Enabled(h, Open(c, link))
    ensures Inv(h.(links := h.links[c := link]), cfg, initialVersion)
  {
    assert InOrder(link);
    LinkKeeps(h, cfg, initialVersion, c, link);
  }

  lemma FallKeeps<C>(h: HubState<C>, cfg: Config, initialVersion: uint64, c: C)
    requires Inv(h, cfg, initialVersion) && c in h.links
    ensures Inv(h.(links := h.links[c := h.links[c].(closed := true)]), cfg, initialVersion)
  {
    assert InOrder(h.links[c]);
    assert InOrder(h.links[c].(closed := true));
    LinkKeeps(h, cfg, initialVersion, c, h.links[c].(closed := true));
  }

  lemma SendKeeps<C>(h: HubState<C>, cfg: Config, initialVersion: uint64, c: C)
    requires Inv(h, cfg, initialVersion) && c in h.links && h.links[c].queue != []
    ensures Inv(h.(links := h.links[c := Advanced(h.links[c])]), cfg, initialVersion)
  {
    assert InOrder(h.links[c]);
    LinkKeeps(h, cfg, initialVersion, c, Advanced(h.links[c]));
  }

  lemma TouchKeeps<C>(h: HubState<C>, cfg: Config, initialVersion: uint64, c: C, link: Link)
    requires Inv(h, cfg, initialVersion) && c in h.links && OnlyTouched(h.links[c], link)
    ensures Inv(h.(links := h.links[c := link]), cfg, initialVersion)
  {
    assert InOrder(h.links[c]);
    assert InOrder(link);
    LinkKeeps(h, cfg, initialVersion, c, link);
  }

  // Runs.

  ghost predicate Runs<C>(h: HubState<C>, cfg: Config, steps: seq<Step<C>>)
    decreases |steps|
  {
    hide Take;
    steps == [] || (Listed(h) && Enabled(h, steps[0]) && Runs(Take(h, cfg, steps[0]), cfg, steps[1..]))
  }

  ghost function After<C>(h: HubState<C>, cfg: Config, steps: seq<Step<C>>): HubState<C>
    requires Runs(h, cfg, steps)
    decreases |steps|
  {
    hide Take;
    if steps == [] then h else After(Take(h, cfg, steps[0]), cfg, steps[1..])
  }

  lemma {:induction false} RunKeeps<C>(h: HubState<C>, cfg: Config, initialVersion: uint64, steps: seq<Step<C>>)
    requires Inv(h, cfg, initialVersion) && Runs(h, cfg, steps)
    ensures Inv(After(h, cfg, steps), cfg, initialVersion)
    decreases |steps|
  {
    hide Inv, Take, Listed, Enabled;
    if steps != [] {
      StepKeeps(h, cfg, initialVersion, steps[0]);
      RunKeeps(Take(h, cfg, steps[0]), cfg, initialVersion, steps[1..]);
    }
  }

  /** What has happened stays: nothing issued, remembered, granted or considered is taken back, the version never
      falls, and once the window is closed every version belongs to an issued text and no clip is queued again. */
  ghost predicate Grows<C>(h: HubState<C>, h': HubState<C>) {
    && h.issued <= h'.issued && h.ring <= h'.ring && h.grants <= h'.grants
    && h.version - |h.issued| <= h'.version - |h'.issued|
    && (forall c :: c in h.joinedAt ==> c in h'.joinedAt && h'.joinedAt[c] == h.joinedAt[c])
    && (h.windowClosed ==>
        && h'.windowClosed && h'.welcomed == h.welcomed && h'.queued == h.queued && h'.considered == h.considered
        && h'.version - h.version == |h'.issued| - |h.issued|)
  }

  lemma ApplyGrows<C>(h: HubState<C>, cfg: Config, clip: ClientClip, sender: C, now: int)
    requires Knows(h, sender)
    ensures Grows(h, ApplyClip(h, cfg, clip, sender, now).0)
  {
    hide Remembered, Granted, Broadcast, OfferTo;
  }

  lemma ProcessGrows<C>(h: HubState<C>, cfg: Config, job: Job<C>, now: int)
    requires Knows(h, ConnectionOf(job))
    ensures Grows(h, ProcessJob(h, cfg, job, now).0)
  {
    hide ApplyClip, Offered;
    if job.ClipJob? { ApplyGrows(h, cfg, job.clip, job.sender, now); }
  }

  lemma CloseGrows<C>(h: HubState<C>, cfg: Config, initialVersion: uint64, now: int)
    requires Inv(h, cfg, initialVersion)
    ensures Grows(h, CloseWindow(h, cfg, now).0)
  {
    CloseKeeps(h, cfg, initialVersion, now);
    hide Core, CloseWindow, AllUpToDate, PayloadBytes, Elect;
    assert !h.windowClosed ==> h.version == initialVersion && h.issued == [] && h.ring == [] && h.grants == [];
  }

  lemma JoinGrows<C>(h: HubState<C>, cfg: Config, initialVersion: uint64, c: C, now: int)
    requires Inv(h, cfg, initialVersion) && Enabled(h, Join(c, now))
    ensures Grows(h, AddConnection(h, cfg, c, now).0)
    ensures var h' := AddConnection(h, cfg, c, now).0; c in h'.joinedAt && h'.joinedAt[c] == |h.issued|
  {
    assert Knows(h, c) && AllKnown(h, h.recoveryQueue);
    hide Inv, CloseWindow, Grows, Listed, Knows, AllKnown;
    if h.windowClosed {
      LinksGrow(Joining(h, c), OfferTo(h.links, c, Delivery(Welcome(h.latest), false)));
    } else {
      JoiningKeeps(h, cfg, initialVersion, c);
      CloseGrows(Joining(h, c), cfg, initialVersion, now);
      LinksGrow(Joining(h, c), h.links);
    }
    JoiningGrows(h, c, AddConnection(h, cfg, c, now).0);
  }

  lemma LinksGrow<C>(h: HubState<C>, links: map<C, Link>)
    ensures Grows(h, h.(links := links))
  {
  }

  lemma JoiningGrows<C>(h: HubState<C>, c: C, h': HubState<C>)
    requires c !in h.joinedAt && Grows(Joining(h, c), h')
    ensures Grows(h, h') && c in h'.joinedAt && h'.joinedAt[c] == |h.issued|
  {
  }

  lemma StepGrows<C>(h: HubState<C>, cfg: Config, initialVersion: uint64, step: Step<C>)
    requires Inv(h, cfg, initialVersion) && Enabled(h, step)
    ensures Grows(h, Take(h, cfg, step))
  {
    InvIsListed(h, cfg, initialVersion);
    hide Inv, Grows, Listed;
    if step.Join? {
      hide AddConnection;
      JoinGrows(h, cfg, initialVersion, step.c, step.now);
    } else if step.Close? {
      hide CloseWindow;
      CloseGrows(h, cfg, initialVersion, step.now);
    } else if step.Process? {
      hide ProcessJob;
      PopGrows(h, cfg, initialVersion, step.now);
    } else {
      hide Take;
      OtherGrows(h, cfg, step);
    }
  }

  lemma InvIsListed<C>(h: HubState<C>, cfg: Config, initialVersion: uint64)
    requires Inv(h, cfg, initialVersion)
    ensures Listed(h)
  {
    hide Numbered, Recorded, Complete, Recovering, AllUpToDate;
  }

  lemma PopGrows<C>(h: HubState<C>, cfg: Config, initialVersion: uint64, now: int)
    requires Inv(h, cfg, initialVersion) && h.jobs != []
    ensures Knows(h, ConnectionOf(h.jobs[0])) && Knows(h.(jobs := h.jobs[1..]), ConnectionOf(h.jobs[0]))
    ensures Grows(h, ProcessJob(h.(jobs := h.jobs[1..]), cfg, h.jobs[0], now).0)
  {
    hide Inv, ProcessJob;
    ProcessKeeps(h, cfg, initialVersion, now);
    ProcessGrows(h.(jobs := h.jobs[1..]), cfg, h.jobs[0], now);
  }

  /** All other steps leave the versions, texts and grants alone. */
  lemma OtherGrows<C>(h: HubState<C>, cfg: Config, step: Step<C>)
    requires Listed(h) && Enabled(h, step) && !step.Join? && !step.Close? && !step.Process?
    ensures Grows(h, Take(h, cfg, step))
  {
    hide Listed, OfferTo, Without, Advanced, CloseWindow, ProcessJob, AddConnection;
  }

  lemma {:induction false} RunGrows<C>(h: HubState<C>, cfg: Config, initialVersion: uint64, steps: seq<Step<C>>)
    requires Inv(h, cfg, initialVersion) && Runs(h, cfg, steps)
    ensures Grows(h, After(h, cfg, steps))
    decreases |steps|
  {
    hide Inv, Take, Listed, Enabled;
    if steps != [] {
      StepKeeps(h, cfg, initialVersion, steps[0]);
      StepGrows(h, cfg, initialVersion, steps[0]);
      RunGrows(Take(h, cfg, steps[0]), cfg, initialVersion, steps[1..]);
    }
  }
}
