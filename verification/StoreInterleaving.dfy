/** The store under any interleaving of savers and flushers, at the granularity of its two locks and its
    atomic dirty bit (internal/state/store.go). Stop is one more flusher. */
module StoreInterleaving {
  import opened Base
  import opened StateStore

  type Thread = nat

  /** Where one goroutine stands inside SaveVersion or Flush. */
  datatype Pc =
    | Idle
    | HasMerged                      // merged under `gate`, dirty bit not yet set
    | HasSwapped                     // took the dirty bit, waits for `writeGate`
    | HasGate                        // holds `writeGate`, has not copied the versions yet
    | HasCopy(snapshot: Versions)    // holds `writeGate` and a copy, file not yet written
    | HasFailed                      // holds `writeGate`, the write failed, dirty bit not yet restored

  datatype System = System(memory: Versions, disk: Versions, dirty: bool, writeGate: Option<Thread>, pcs: map<Thread, Pc>)

  function At(s: System, t: Thread): Pc {
    if t in s.pcs then s.pcs[t] else Idle
  }

  function Goto(s: System, t: Thread, pc: Pc): System {
    s.(pcs := s.pcs[t := pc])
  }

  datatype Step =
    | Merge(t: Thread, username: gostring, version: uint64)
    | SetBit(t: Thread)
    | SwapClean(t: Thread)
    | SwapDirty(t: Thread)
    | TakeGate(t: Thread)
    | Copy(t: Thread)
    | Write(t: Thread)
    | FailWrite(t: Thread)
    | Rearm(t: Thread)

  predicate Enabled(s: System, step: Step) {
    match step
    case Merge(t, _, _) => At(s, t).Idle?
    case SetBit(t) => At(s, t).HasMerged?
    case SwapClean(t) => At(s, t).Idle? && !s.dirty
    case SwapDirty(t) => At(s, t).Idle? && s.dirty
    case TakeGate(t) => At(s, t).HasSwapped? && s.writeGate.None?
    case Copy(t) => At(s, t).HasGate?
    case Write(t) => At(s, t).HasCopy?
    case FailWrite(t) => At(s, t).HasCopy?
    case Rearm(t) => At(s, t).HasFailed?
  }

  function Take(s: System, step: Step): System
    requires Enabled(s, step)
  {
    match step
    case Merge(t, username, version) => Goto(s, t, HasMerged).(memory := Merged(s.memory, username, version))
    case SetBit(t) => Goto(s, t, Idle).(dirty := true)
    case SwapClean(t) => s
    case SwapDirty(t) => Goto(s, t, HasSwapped).(dirty := false)
    case TakeGate(t) => Goto(s, t, HasGate).(writeGate := Some(t))
    case Copy(t) => Goto(s, t, HasCopy(s.memory))
    case Write(t) => Goto(s, t, Idle).(disk := At(s, t).snapshot, writeGate := None)
    case FailWrite(t) => Goto(s, t, HasFailed)
    case Rearm(t) => Goto(s, t, Idle).(dirty := true, writeGate := None)
  }

  ghost predicate AtMost(a: Versions, b: Versions) {
    forall username :: VersionOf(a, username) <= VersionOf(b, username)
  }

  /** Thread `t` will still bring the in-memory version of this user to disk, or set the bit that makes someone do so. */
  ghost predicate Carries(s: System, t: Thread, username: gostring) {
    match At(s, t)
    case Idle => false
    case HasCopy(snapshot) => VersionOf(snapshot, username) == VersionOf(s.memory, username)
    case _ => true
  }

  /** No update is lost: it is on disk, or the dirty bit stands for it, or a thread carries it. */
  ghost predicate Covered(s: System, username: gostring) {
    || VersionOf(s.disk, username) == VersionOf(s.memory, username)
    || s.dirty
    || exists t :: Carries(s, t, username)
  }

  predicate NeedsGate(pc: Pc) {
    pc.HasGate? || pc.HasCopy? || pc.HasFailed?
  }

  ghost predicate Ordered(s: System) {
    && AtMost(s.disk, s.memory)
    && (forall t: nat :: NeedsGate(At(s, t)) <==> s.writeGate == Some(t))
    && (forall t :: At(s, t).HasCopy? ==> AtMost(s.disk, At(s, t).snapshot) && AtMost(At(s, t).snapshot, s.memory))
  }

  ghost predicate Inv(s: System) {
    Ordered(s) && forall username :: Covered(s, username)
  }

  /** Versions held in memory and on disk only grow, whatever step is taken. */
  lemma StepKeepsOrdered(s: System, step: Step)
    requires Ordered(s) && Enabled(s, step)
    ensures Ordered(Take(s, step))
    ensures AtMost(s.disk, Take(s, step).disk) && AtMost(s.memory, Take(s, step).memory)
  {
    var s' := Take(s, step);
    assert forall t :: t != step.t ==> At(s', t) == At(s, t);
    if step.Merge? {
      forall username ensures VersionOf(s.memory, username) <= VersionOf(s'.memory, username) {
        MergedIsMax(s.memory, step.username, step.version, username);
      }
    }
  }

  lemma StepKeepsCovered(s: System, step: Step, username: gostring)
    requires Ordered(s) && Enabled(s, step) && Covered(s, username)
    ensures Covered(Take(s, step), username)
  {
    var s' := Take(s, step);
    StepKeepsOrdered(s, step);
    assert forall t :: t != step.t ==> At(s', t) == At(s, t);
    assert At(s', step.t) == if step.SwapClean? then At(s, step.t) else s'.pcs[step.t];
    match step
    case Merge(t, _, _) => assert Carries(s', t, username);
    case SwapDirty(t) => assert Carries(s', t, username);
    case Copy(t) => assert Carries(s', t, username);
    case FailWrite(t) => assert Carries(s', t, username);
    case TakeGate(t) => assert Carries(s', t, username);
    case Write(t) =>
      if t' :| Carries(s, t', username) && t' != t {
        assert Carries(s', t', username);
      }
    case _ =>
  }

  lemma StepKeepsInv(s: System, step: Step)
    requires Inv(s) && Enabled(s, step)
    ensures Inv(Take(s, step))
  {
    StepKeepsOrdered(s, step);
    forall username ensures Covered(Take(s, step), username) {
      StepKeepsCovered(s, step, username);
    }
  }

  ghost predicate Runs(s: System, steps: seq<Step>)
    decreases |steps|
  {
    steps == [] || (Enabled(s, steps[0]) && Runs(Take(s, steps[0]), steps[1..]))
  }

  ghost function After(s: System, steps: seq<Step>): System
    requires Runs(s, steps)
    decreases |steps|
  {
    if steps == [] then s else After(Take(s, steps[0]), steps[1..])
  }

  /** A freshly loaded store: memory is the file, nothing is dirty, no thread is busy. */
  function Loaded(file: Versions): System {
    System(file, file, false, None, map[])
  }

  ghost predicate Quiescent(s: System) {
    forall t :: At(s, t).Idle?
  }

  lemma {:induction false} RunKeepsInv(s: System, steps: seq<Step>)
    requires Inv(s) && Runs(s, steps)
    ensures Inv(After(s, steps))
    ensures AtMost(s.disk, After(s, steps).disk) && AtMost(s.memory, After(s, steps).memory)
    decreases |steps|
  {
    if steps != [] {
      StepKeepsInv(s, steps[0]);
      StepKeepsOrdered(s, steps[0]);
      RunKeepsInv(Take(s, steps[0]), steps[1..]);
    }
  }

  /** From a loaded store, over every interleaving: no version is lost, and once all threads are idle a clean
      store has exactly its memory on disk, also when writes failed on the way. */
  lemma NoUpdateIsLost(file: Versions, steps: seq<Step>)
    requires Runs(Loaded(file), steps)
    ensures var s := After(Loaded(file), steps);
            && (forall username :: Covered(s, username))
            && (Quiescent(s) && !s.dirty ==> forall username :: VersionOf(s.disk, username) == VersionOf(s.memory, username))
  {
    RunKeepsInv(Loaded(file), steps);
    var s := After(Loaded(file), steps);
    if Quiescent(s) && !s.dirty {
      forall username ensures VersionOf(s.disk, username) == VersionOf(s.memory, username) {
        assert Covered(s, username);
        forall t ensures !Carries(s, t, username) {}
      }
    }
  }

  lemma Unfold(s: System, step: Step, rest: seq<Step>)
    requires Enabled(s, step) && Runs(Take(s, step), rest)
    ensures Runs(s, [step] + rest) && After(s, [step] + rest) == After(Take(s, step), rest)
  {
    assert ([step] + rest)[1..] == rest;
  }

  /** Store.Flush of a dirty store, step by step. */
  function FlushSteps(t: Thread, writes: bool): seq<Step> {
    [SwapDirty(t)] + ([TakeGate(t)] + ([Copy(t)] + if writes then [Write(t)] + [] else [FailWrite(t)] + ([Rearm(t)] + [])))
  }

  /** One flush alone, from a quiescent dirty store, does what Store.Flush promises: a good write puts memory
      on disk and leaves the store clean, a failed one changes nothing and leaves it dirty. */
  lemma FlushAlone(s: System, t: Thread, writes: bool)
    requires Inv(s) && Quiescent(s) && s.dirty
    ensures Runs(s, FlushSteps(t, writes))
    ensures var s' := After(s, FlushSteps(t, writes));
            && Quiescent(s') && s'.memory == s.memory
            && s'.disk == (if writes then s.memory else s.disk)
            && s'.dirty == !writes
  {
    GateIsFree(s);
    var s1 := Take(s, SwapDirty(t));
    var s2 := Take(s1, TakeGate(t));
    var s3 := Take(s2, Copy(t));
    var end := if writes then [Write(t)] + [] else [FailWrite(t)] + ([Rearm(t)] + []);
    FlushStart(s, t);
    FlushEnd(s3, t, writes);
    hide Enabled, Take, Runs, After, At, Inv;
    Unfold(s2, Copy(t), end);
    Unfold(s1, TakeGate(t), [Copy(t)] + end);
    Unfold(s, SwapDirty(t), [TakeGate(t)] + ([Copy(t)] + end));
    var s' := After(s3, end);
    assert Quiescent(s') by {
      forall u ensures At(s', u).Idle? {
        assert At(s, u).Idle?;
      }
    }
  }

  lemma GateIsFree(s: System)
    requires Inv(s) && Quiescent(s)
    ensures s.writeGate == None
  {
    forall u: nat ensures s.writeGate != Some(u) {
      assert At(s, u).Idle?;
    }
  }

  /** Swapping the bit, taking the gate and copying. */
  lemma FlushStart(s: System, t: Thread)
    requires Inv(s) && Quiescent(s) && s.dirty && s.writeGate == None
    ensures Enabled(s, SwapDirty(t))
    ensures var s1 := Take(s, SwapDirty(t));
            && Enabled(s1, TakeGate(t))
            && var s2 := Take(s1, TakeGate(t));
            && Enabled(s2, Copy(t))
            && var s3 := Take(s2, Copy(t));
            && s3.memory == s.memory && s3.disk == s.disk && !s3.dirty && s3.writeGate == Some(t)
            && At(s3, t) == HasCopy(s.memory)
            && forall u :: u != t ==> At(s3, u) == At(s, u)
  {
    assert At(s, t).Idle?;
  }

  /** A good write, or a failed one and the bit set again. */
  lemma FlushEnd(s: System, t: Thread, writes: bool)
    requires At(s, t).HasCopy? && s.writeGate == Some(t) && !s.dirty
    ensures var steps := if writes then [Write(t)] + [] else [FailWrite(t)] + ([Rearm(t)] + []);
            && Runs(s, steps)
            && var s' := After(s, steps);
            && s'.memory == s.memory && s'.disk == (if writes then At(s, t).snapshot else s.disk) && s'.dirty == !writes
            && At(s', t).Idle?
            && forall u :: u != t ==> At(s', u) == At(s, u)
  {
    if writes {
      Unfold(s, Write(t), []);
    } else {
      var s4 := Take(s, FailWrite(t));
      Unfold(s4, Rearm(t), []);
      Unfold(s, FailWrite(t), [Rearm(t)] + []);
    }
  }
}
