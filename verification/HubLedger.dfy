/** Every clip that arrives over a run, and what became of it (internal/hub/hub.go, internal/hosting/connection.go). */
module HubLedger {
  import opened Base
  import opened Messages
  import opened Connections
  import opened SeenIdRing
  import opened HubSpec
  import opened HubInvariants
  import opened HubRuns
  import opened SnapshotElection
  import ClientMessages

  // One fate for each clip.

  /** Clips in the order of the run: all that arrived; those queued for recovery, handed to the user loop, and
      refused; and those the user loop has taken. */
  datatype Tally<+C> = Tally(arrived: seq<RecoveryClip<C>>, queued: seq<RecoveryClip<C>>, handed: seq<RecoveryClip<C>>,
                             refused: seq<RecoveryClip<C>>, processed: seq<RecoveryClip<C>>)

  function Plus<C>(a: Tally<C>, b: Tally<C>): Tally<C> {
    Tally(a.arrived + b.arrived, a.queued + b.queued, a.handed + b.handed, a.refused + b.refused, a.processed + b.processed)
  }

  ghost function StepTally<C>(h: HubState<C>, cfg: Config, step: Step<C>): Tally<C>
    requires Listed(h) && Enabled(h, step)
  {
    match step
    case Arrive(c, clip) =>
      var r := RecoveryClip(clip, c);
      if h.windowClosed then Tally([r], [], [r], [], [])
      else if |h.recoveryQueue| < cfg.recoveryCapacity then Tally([r], [r], [], [], [])
      else Tally([r], [], [], [r], [])
    case Process(_) =>
      if h.jobs[0].ClipJob? then Tally([], [], [], [], [RecoveryClip(h.jobs[0].clip, h.jobs[0].sender)]) else Tally([], [], [], [], [])
    case _ => Tally([], [], [], [], [])
  }

  ghost function RunTally<C>(h: HubState<C>, cfg: Config, steps: seq<Step<C>>): Tally<C>
    requires Runs(h, cfg, steps)
    decreases |steps|
  {
    hide Take;
    if steps == [] then Tally([], [], [], [], [])
    else Plus(StepTally(h, cfg, steps[0]), RunTally(Take(h, cfg, steps[0]), cfg, steps[1..]))
  }

  /** The clips waiting in a job queue. */
  function ClipsOf<C>(jobs: seq<Job<C>>): seq<RecoveryClip<C>> {
    if jobs == [] then []
    else (if jobs[0].ClipJob? then [RecoveryClip(jobs[0].clip, jobs[0].sender)] else []) + ClipsOf(jobs[1..])
  }

  lemma {:induction false} ClipsOfAppend<C>(jobs: seq<Job<C>>, job: Job<C>)
    ensures ClipsOf(jobs + [job]) == ClipsOf(jobs) + if job.ClipJob? then [RecoveryClip(job.clip, job.sender)] else []
    decreases |jobs|
  {
    var all := jobs + [job];
    ClipsOfStep(all);
    if jobs == [] {
      assert all[1..] == [];
    } else {
      assert all[1..] == jobs[1..] + [job] && all[0] == jobs[0];
      ClipsOfStep(jobs);
      hide ClipsOf;
      ClipsOfAppend(jobs[1..], job);
    }
  }

  lemma ClipsOfStep<C>(jobs: seq<Job<C>>)
    requires jobs != []
    ensures ClipsOf(jobs) == (if jobs[0].ClipJob? then [RecoveryClip(jobs[0].clip, jobs[0].sender)] else []) + ClipsOf(jobs[1..])
  {
  }

  /** Closed connections stay closed. */
  ghost predicate ClosedStay<C>(before: map<C, Link>, after: map<C, Link>) {
    forall c :: c in before && before[c].closed ==> c in after && after[c].closed
  }

  lemma OfferCloses<C>(links: map<C, Link>, c: C, d: Delivery)
    requires c in links
    ensures ClosedStay(links, OfferTo(links, c, d))
  {
  }

  lemma BroadcastCloses<C>(links: map<C, Link>, listed: seq<C>, except: Option<C>, d: Delivery)
    ensures ClosedStay(links, Broadcast(links, listed, except, d))
  {
  }

  lemma ClosedStayOn<C>(a: map<C, Link>, b: map<C, Link>, c: map<C, Link>)
    requires ClosedStay(a, b) && ClosedStay(b, c)
    ensures ClosedStay(a, c)
  {
  }

  /** Applying a clip leaves the queue, the jobs and closed connections alone. */
  ghost predicate Undisturbed<C>(h: HubState<C>, h': HubState<C>) {
    h'.queued == h.queued && h'.jobs == h.jobs && ClosedStay(h.links, h'.links)
  }

  lemma AssignCloses<C>(h: HubState<C>, clip: ClientClip, sender: C, version: uint64, now: int)
    requires Knows(h, sender)
    ensures Undisturbed(h, Assign(h, clip, sender, version, now))
  {
    var text := TextOf(clip, version, h.links[sender], now);
    var told := Broadcast(h.links, h.connections, Some(sender), Delivery(ClipFrame(clip.id, text), true));
    BroadcastCloses(h.links, h.connections, Some(sender), Delivery(ClipFrame(clip.id, text), true));
    OfferCloses(told, sender, Delivery(AckFrame(clip.id, text), true));
    hide Broadcast, OfferTo, TextOf;
  }

  lemma ApplyUndisturbed<C>(h: HubState<C>, cfg: Config, clip: ClientClip, sender: C, now: int)
    requires Knows(h, sender)
    ensures Undisturbed(h, ApplyClip(h, cfg, clip, sender, now).0)
  {
    hide Remembered, Granted, Assign, OfferTo;
    if Remembered(h, cfg, clip).Some? {
      OfferCloses(h.links, sender, Delivery(AckFrame(clip.id, Remembered(h, cfg, clip).value), false));
    } else if !Granted(h, cfg, now) {
      OfferCloses(h.links, sender, Delivery(RateLimitedFrame(clip.id), false));
    } else {
      assert Knows(Charged(h, now), sender);
      if h.version < MAX_UINT64 { AssignCloses(Charged(h, now), clip, sender, h.version + 1, now); }
    }
  }

  lemma {:induction false} DrainUndisturbed<C>(h: HubState<C>, cfg: Config, clips: seq<RecoveryClip<C>>, now: int)
    requires AllKnown(h, clips)
    ensures Undisturbed(h, Drain(h, cfg, clips, now).0)
    decreases |clips|
  {
    hide ApplyClip;
    if clips != [] {
      var n := |clips| - 1;
      DrainUndisturbed(h, cfg, clips[..n], now);
      var front := Drain(h, cfg, clips[..n], now).0;
      ApplyUndisturbed(front.(considered := front.considered + [clips[n]]), cfg, clips[n].clip, clips[n].connection, now);
    }
  }

  lemma CloseUndisturbed<C>(h: HubState<C>, cfg: Config, now: int)
    requires AllKnown(h, h.recoveryQueue)
    ensures Undisturbed(h, CloseWindow(h, cfg, now).0)
  {
    if !h.windowClosed {
      RestoreUndisturbed(h);
      hide Restore, Drain, Broadcast;
      var r := Restore(h).(windowClosed := true, recoveryQueue := []);
      DrainUndisturbed(r, cfg, h.recoveryQueue, now);
      var drained := Drain(r, cfg, h.recoveryQueue, now).0;
      BroadcastCloses(drained.links, drained.connections, None, Delivery(Welcome(drained.latest), false));
    }
  }

  lemma RestoreUndisturbed<C>(h: HubState<C>)
    ensures var r := Restore(h);
            r.queued == h.queued && r.jobs == h.jobs && r.links == h.links && r.connections == h.connections && r.recoveryQueue == h.recoveryQueue
  {
    hide Elect;
  }

  lemma JoinUndisturbed<C>(h: HubState<C>, cfg: Config, c: C, now: int)
    requires Knows(h, c) && AllKnown(h, h.recoveryQueue)
    ensures Undisturbed(h, AddConnection(h, cfg, c, now).0)
  {
    hide OfferTo, CloseWindow;
    OfferCloses(h.links, c, Delivery(Welcome(h.latest), false));
    CloseUndisturbed(Joining(h, c), cfg, now);
  }

  /** One step keeps the books: what arrives is queued, handed on or refused; what the user loop takes leaves the
      front of the job queue; a refused clip's connection is closed. */
  ghost predicate Balances<C>(h: HubState<C>, t: Tally<C>, h': HubState<C>) {
    && multiset(t.arrived) == multiset(t.queued) + multiset(t.handed) + multiset(t.refused)
    && h'.queued == h.queued + t.queued
    && ClipsOf(h.jobs) + t.handed == t.processed + ClipsOf(h'.jobs)
    && ClosedStay(h.links, h'.links)
    && (forall i :: 0 <= i < |t.refused| ==> t.refused[i].connection in h'.links && h'.links[t.refused[i].connection].closed)
  }

  lemma NothingBalances<C>(h: HubState<C>, h': HubState<C>)
    requires Undisturbed(h, h')
    ensures Balances(h, Tally([], [], [], [], []), h')
  {
  }

  lemma ProcessBalances<C>(h: HubState<C>, cfg: Config, now: int)
    requires Listed(h) && h.jobs != [] && Enabled(h, Process(now))
    ensures Balances(h, StepTally(h, cfg, Process(now)), Take(h, cfg, Process(now)))
  {
    var popped, job := h.(jobs := h.jobs[1..]), h.jobs[0];
    assert Knows(popped, ConnectionOf(job));
    JobUndisturbed(popped, cfg, job, now);
    hide Listed, ProcessJob, Undisturbed, Balances;
    PopBalances(h, ProcessJob(popped, cfg, job, now).0);
  }

  lemma JobUndisturbed<C>(h: HubState<C>, cfg: Config, job: Job<C>, now: int)
    requires Knows(h, ConnectionOf(job))
    ensures Undisturbed(h, ProcessJob(h, cfg, job, now).0)
  {
    hide ApplyClip, Without;
    if job.ClipJob? {
      hide Undisturbed;
      ApplyUndisturbed(h, cfg, job.clip, job.sender, now);
    }
  }

  lemma PopBalances<C>(h: HubState<C>, h': HubState<C>)
    requires h.jobs != [] && Undisturbed(h.(jobs := h.jobs[1..]), h')
    ensures Balances(h, Tally([], [], [], [],
                              if h.jobs[0].ClipJob? then [RecoveryClip(h.jobs[0].clip, h.jobs[0].sender)] else []), h')
  {
  }

  lemma ArriveBalances<C>(h: HubState<C>, cfg: Config, c: C, clip: ClientClip)
    requires Listed(h) && c in h.links
    ensures Balances(h, StepTally(h, cfg, Arrive(c, clip)), Receive(h, cfg, clip, c))
  {
    hide Without, Listed;
    ClipsOfAppend(h.jobs, ClipJob(c, clip));
    hide ClipsOf;
  }

  lemma StepBalances<C>(h: HubState<C>, cfg: Config, step: Step<C>)
    requires Listed(h) && Enabled(h, step)
    ensures Balances(h, StepTally(h, cfg, step), Take(h, cfg, step))
  {
    hide Balances, Undisturbed;
    if step.Arrive? {
      ArriveBalances(h, cfg, step.c, step.clip);
    } else if step.Process? {
      ProcessBalances(h, cfg, step.now);
    } else if step.Push? {
      PushBalances(h, step.job);
    } else {
      QuietSteps(h, cfg, step);
      hide Take;
      NothingBalances(h, Take(h, cfg, step));
    }
  }

  lemma PushBalances<C>(h: HubState<C>, job: Job<C>)
    requires !job.ClipJob?
    ensures Balances(h, Tally([], [], [], [], []), h.(jobs := h.jobs + [job]))
  {
    ClipsOfAppend(h.jobs, job);
  }

  lemma QuietSteps<C>(h: HubState<C>, cfg: Config, step: Step<C>)
    requires Listed(h) && Enabled(h, step) && !step.Arrive? && !step.Process? && !step.Push?
    ensures Undisturbed(h, Take(h, cfg, step))
  {
    hide Undisturbed;
    if step.Join? {
      hide AddConnection;
      JoinUndisturbed(h, cfg, step.c, step.now);
    } else if step.Close? {
      hide CloseWindow;
      CloseUndisturbed(h, cfg, step.now);
    } else {
      hide Take;
      OtherUndisturbed(h, cfg, step);
    }
  }

  lemma OtherUndisturbed<C>(h: HubState<C>, cfg: Config, step: Step<C>)
    requires Listed(h) && Enabled(h, step) && !step.Arrive? && !step.Process? && !step.Push? && !step.Join? && !step.Close?
    ensures Undisturbed(h, Take(h, cfg, step))
  {
    hide Listed, Without, OfferTo, CloseWindow, ProcessJob, AddConnection, Receive;
    if step.Enqueue? { OfferCloses(h.links, step.c, Delivery(step.other, false)); }
  }

  lemma BalancesOn<C>(h: HubState<C>, a: Tally<C>, h1: HubState<C>, b: Tally<C>, h2: HubState<C>)
    requires Balances(h, a, h1) && Balances(h1, b, h2)
    ensures Balances(h, Plus(a, b), h2)
  {
    ClosedStayOn(h.links, h1.links, h2.links);
    Rejoin(ClipsOf(h.jobs), a.handed, a.processed, ClipsOf(h1.jobs), b.handed, b.processed, ClipsOf(h2.jobs));
    assert h.queued + a.queued + b.queued == h.queued + (a.queued + b.queued);
    var t := Plus(a, b);
    forall i | 0 <= i < |t.refused| ensures t.refused[i].connection in h2.links && h2.links[t.refused[i].connection].closed {
      if i < |a.refused| { assert t.refused[i] == a.refused[i]; }
    }
    hide ClipsOf;
  }

  lemma Rejoin<T>(j: seq<T>, ah: seq<T>, ap: seq<T>, j1: seq<T>, bh: seq<T>, bp: seq<T>, j2: seq<T>)
    requires j + ah == ap + j1 && j1 + bh == bp + j2
    ensures j + (ah + bh) == (ap + bp) + j2
  {
    assert j + (ah + bh) == (j + ah) + bh;
    assert (ap + j1) + bh == ap + (j1 + bh);
    assert ap + (bp + j2) == (ap + bp) + j2;
  }

  /** Over every run each clip that arrives has exactly one of three fates. The queued ones are considered at the
      close, each once and in order; the user loop takes the handed ones in order, none is lost; and the connection
      of a refused one is closed for good. */
  lemma EveryClipHasOneFate<C>(h: HubState<C>, cfg: Config, initialVersion: uint64, steps: seq<Step<C>>)
    requires Inv(h, cfg, initialVersion) && Runs(h, cfg, steps)
    ensures var h', t := After(h, cfg, steps), RunTally(h, cfg, steps);
            && Balances(h, t, h')
            && (h'.welcomed ==> h'.considered == h.queued + t.queued)
            && (!h'.windowClosed ==> h'.recoveryQueue == h.queued + t.queued && h'.considered == [])
            && |h'.recoveryQueue| <= cfg.recoveryCapacity
  {
    RunBalances(h, cfg, initialVersion, steps);
    RunKeeps(h, cfg, initialVersion, steps);
    hide Core, Balances, RunTally, After, Runs, AllUpToDate, PayloadBytes, WinnerVersion;
    BalancedQueue(h, RunTally(h, cfg, steps), After(h, cfg, steps));
  }

  lemma BalancedQueue<C>(h: HubState<C>, t: Tally<C>, h': HubState<C>)
    requires Balances(h, t, h')
    ensures h'.queued == h.queued + t.queued
  {
  }

  lemma {:induction false} RunBalances<C>(h: HubState<C>, cfg: Config, initialVersion: uint64, steps: seq<Step<C>>)
    requires Inv(h, cfg, initialVersion) && Runs(h, cfg, steps)
    ensures Balances(h, RunTally(h, cfg, steps), After(h, cfg, steps))
    decreases |steps|
  {
    hide Inv, Take, Listed, Enabled, Balances, StepTally, Plus;
    if steps == [] {
      StillUndisturbed(h);
      NothingBalances(h, h);
    } else {
      var next := Take(h, cfg, steps[0]);
      StepBalances(h, cfg, steps[0]);
      StepKeeps(h, cfg, initialVersion, steps[0]);
      RunBalances(next, cfg, initialVersion, steps[1..]);
      BalancesOn(h, StepTally(h, cfg, steps[0]), next, RunTally(next, cfg, steps[1..]), After(next, cfg, steps[1..]));
    }
  }

  lemma StillUndisturbed<C>(h: HubState<C>)
    ensures Undisturbed(h, h)
  {
  }

  // No empty ids.

  /** No clip under the empty id is queued, handed on or remembered. */
  ghost predicate Named<C>(h: HubState<C>) {
    && (forall i :: 0 <= i < |h.recoveryQueue| ==> h.recoveryQueue[i].clip.id != [])
    && (forall i :: 0 <= i < |h.jobs| && h.jobs[i].ClipJob? ==> h.jobs[i].clip.id != [])
    && (forall i :: 0 <= i < |h.ring| ==> h.ring[i].id != [])
  }

  lemma ApplyNamed<C>(h: HubState<C>, cfg: Config, clip: ClientClip, sender: C, now: int)
    requires Named(h) && Knows(h, sender) && clip.id != []
    ensures Named(ApplyClip(h, cfg, clip, sender, now).0)
    ensures ApplyClip(h, cfg, clip, sender, now).0.recoveryQueue == h.recoveryQueue
  {
    hide Remembered, Granted, Broadcast, OfferTo, TextOf;
  }

  lemma {:induction false} DrainNamed<C>(h: HubState<C>, cfg: Config, clips: seq<RecoveryClip<C>>, now: int)
    requires Named(h) && AllKnown(h, clips) && forall i :: 0 <= i < |clips| ==> clips[i].clip.id != []
    ensures Named(Drain(h, cfg, clips, now).0)
    decreases |clips|
  {
    hide ApplyClip;
    if clips != [] {
      var n := |clips| - 1;
      DrainNamed(h, cfg, clips[..n], now);
      var front := Drain(h, cfg, clips[..n], now).0;
      ApplyNamed(front.(considered := front.considered + [clips[n]]), cfg, clips[n].clip, clips[n].connection, now);
    }
  }

  lemma CloseNamed<C>(h: HubState<C>, cfg: Config, now: int)
    requires Named(h) && AllKnown(h, h.recoveryQueue)
    ensures Named(CloseWindow(h, cfg, now).0)
  {
    if !h.windowClosed {
      RestoreUndisturbed(h);
      RestoreRing(h);
      hide Restore, Drain, Broadcast;
      DrainNamed(Restore(h).(windowClosed := true, recoveryQueue := []), cfg, h.recoveryQueue, now);
    }
  }

  lemma RestoreRing<C>(h: HubState<C>)
    ensures Restore(h).ring == h.ring
  {
    hide Elect;
  }

  lemma StepNamed<C>(h: HubState<C>, cfg: Config, step: Step<C>)
    requires Named(h) && Listed(h) && Enabled(h, step) && (step.Arrive? ==> step.clip.id != [])
    ensures Named(Take(h, cfg, step))
  {
    if step.Join? {
      hide Named, CloseWindow, OfferTo;
      JoinNamed(h, cfg, step.c, step.now);
    } else if step.Close? {
      hide Named, CloseWindow;
      CloseNamed(h, cfg, step.now);
    } else if step.Process? {
      hide Named, ProcessJob;
      PopNamed(h, cfg, step.now);
    } else {
      hide Take;
      OtherNamed(h, cfg, step);
    }
  }

  lemma JoinNamed<C>(h: HubState<C>, cfg: Config, c: C, now: int)
    requires Named(h) && Knows(h, c) && AllKnown(h, h.recoveryQueue)
    ensures Named(AddConnection(h, cfg, c, now).0)
  {
    CloseNamed(Joining(h, c), cfg, now);
    hide CloseWindow, OfferTo;
  }

  lemma PopNamed<C>(h: HubState<C>, cfg: Config, now: int)
    requires Named(h) && Listed(h) && h.jobs != []
    ensures Knows(h.(jobs := h.jobs[1..]), ConnectionOf(h.jobs[0]))
    ensures Named(ProcessJob(h.(jobs := h.jobs[1..]), cfg, h.jobs[0], now).0)
  {
    hide InOrder, Distinct;
    var popped, job := h.(jobs := h.jobs[1..]), h.jobs[0];
    assert Named(popped) && Knows(popped, ConnectionOf(job)) && (job.ClipJob? ==> job.clip.id != []);
    hide Listed, Knows;
    JobNamed(popped, cfg, job, now);
  }

  lemma JobNamed<C>(h: HubState<C>, cfg: Config, job: Job<C>, now: int)
    requires Named(h) && Knows(h, ConnectionOf(job)) && (job.ClipJob? ==> job.clip.id != [])
    ensures Named(ProcessJob(h, cfg, job, now).0)
  {
    hide ApplyClip, Without;
    if job.ClipJob? {
      hide Named;
      ApplyNamed(h, cfg, job.clip, job.sender, now);
    }
  }

  lemma OtherNamed<C>(h: HubState<C>, cfg: Config, step: Step<C>)
    requires Named(h) && Listed(h) && Enabled(h, step) && (step.Arrive? ==> step.clip.id != [])
    requires !step.Join? && !step.Close? && !step.Process?
    ensures Named(Take(h, cfg, step))
  {
    hide Listed, Without, Advanced, OfferTo, CloseWindow, ProcessJob, AddConnection;
  }

  /** Every clip that arrives has passed validation (internal/protocol/protocol.go:321-328). */
  ghost predicate ValidArrivals<C>(steps: seq<Step<C>>, maxTextBytes: int) {
    forall i :: 0 <= i < |steps| && steps[i].Arrive? ==> ClientMessages.ValidateClip(steps[i].clip, maxTextBytes)
  }

  lemma {:induction false} RunNamed<C>(h: HubState<C>, cfg: Config, initialVersion: uint64, steps: seq<Step<C>>, maxTextBytes: int)
    requires Inv(h, cfg, initialVersion) && Named(h) && Runs(h, cfg, steps) && ValidArrivals(steps, maxTextBytes)
    ensures Named(After(h, cfg, steps))
    decreases |steps|
  {
    hide Inv, Take, Listed, Enabled, Named;
    if steps != [] {
      StepNamed(h, cfg, steps[0]);
      StepKeeps(h, cfg, initialVersion, steps[0]);
      RunNamed(Take(h, cfg, steps[0]), cfg, initialVersion, steps[1..], maxTextBytes);
    }
  }

  /** In every hub reached by clips that passed validation, the ring holds no more ids than its capacity, the empty
      one included, because it is never there. */
  lemma RingStaysWithinCapacity<C>(h: HubState<C>, cfg: Config, initialVersion: uint64, steps: seq<Step<C>>, maxTextBytes: int,
                                   ids: set<gostring>)
    requires ValidConfig(cfg) && Inv(h, cfg, initialVersion) && Named(h) && Runs(h, cfg, steps) && ValidArrivals(steps, maxTextBytes)
    requires forall id :: id in ids ==> Lookup(After(h, cfg, steps).ring, cfg.seenIdCapacity, id).Some?
    ensures |ids| <= cfg.seenIdCapacity
  {
    RunNamed(h, cfg, initialVersion, steps, maxTextBytes);
    hide Inv, Runs, After, ValidArrivals;
    var ring := After(h, cfg, steps).ring;
    AtMostCapacity(ring, cfg.seenIdCapacity, ids);
  }
}
