// An open index together with its directory: flushing and compacting as a
// caller does it (flush.rs:169-244, mod.rs:315-376). Every call, failed or not,
// is a run of the model in `Runs`.
module Handle {
  import opened Common
  import opened Snapshots
  import opened Commit
  import opened Pending
  import I = Index
  import opened Disk
  import opened Flush
  import opened CompactPlan
  import opened Compact
  import opened CompactPublish
  import opened Runs
  import opened Bookkeeping

  // How a durable operation that reports an error can have left things: it
  // stopped before its manifest, or what it published does not open, or it
  // published and the handle could not reopen and is now behind the disk.
  datatype Ending = Done | NotPublished | Unopenable | LeftBehind

  // What writers put on disk and opening checks.
  ghost predicate SoundDisk(st: State) { CountsRight(st) && (BaseOf(st).Ok? ==> SegsWF(BaseOf(st).value)) }

  ghost predicate CanFollow(ov: Overlay, base: Result<seq<Segment>>) { base.Ok? && FitsOnto(ov, base.value) }

  lemma SameIsSound(a: State, b: State)
    requires SoundDisk(a) && SameIndex(a, b)
    ensures SoundDisk(b)
  {
  }

  // What a published flush leaves on disk.
  lemma FlushOutcome(lx: Lexer, s: Snapshot, before: State, after: State)
    requires LayersWF(lx, s) && SoundDisk(before) && PublishesFlush(lx, s, before, after)
    ensures SoundDisk(after) && (Load(after).Ok? <==> CanFollow(s.overlay, BaseOf(before)))
    ensures Load(after).Ok? ==> LayersWF(lx, Load(after).value) && Synced(after, Load(after).value)
    ensures Synced(before, s) ==> OpensFlushed(lx, s, after)
  {
    if CanFollow(s.overlay, BaseOf(before)) {
      FlushedLayers(lx, s, BaseOf(before).value, Load(after).value);
    }
    if Synced(before, s) {
      InStepFlush(lx, s, before, after);
    }
  }

  lemma CompactedIsSound(lx: Lexer, s: Snapshot, base: seq<Segment>, start: nat, batch: nat, after: State)
    requires SegsWF(base) && start <= |s.segs| && start <= |base|
    requires OpensCompactedOnto(lx, s, base, start, batch, after) && CountsRight(after)
    ensures SoundDisk(after)
    ensures Load(after).Ok? ==> LayersWF(lx, Load(after).value) && Synced(after, Load(after).value)
  {
    if FitsAfter(lx, s, start, Limit(base[..start])) {
      CompactedWF(lx, s, base, start, batch, Load(after).value);
    }
  }

  // What a published compaction leaves on disk, over a base that opens.
  lemma CompactionOutcome(lx: Lexer, s: Snapshot, plan: Plan, before: State, after: State)
    requires LayersWF(lx, s) && SoundDisk(before) && BaseOf(before).Ok? && plan.suffixStart <= |s.segs|
    requires PublishesCompaction(lx, s, plan.suffixStart, Max(plan.batchSizeBytes, 1), before, after)
    ensures SoundDisk(after)
    ensures Load(after).Ok? ==> LayersWF(lx, Load(after).value) && Synced(after, Load(after).value)
  {
    var start, batch, base := plan.suffixStart, Max(plan.batchSizeBytes, 1), BaseOf(before).value;
    CompactsOnto(lx, s, start, batch, before, after);
    CompactedIsSound(lx, s, base, start, batch, after);
  }

  // And for a handle in step.
  lemma InStepCompaction(lx: Lexer, s: Snapshot, maxSegments: nat, bloat: bool, before: State, after: State)
    requires Synced(before, s) && ForcedPlan(lx, s, maxSegments, bloat).Some?
    requires var plan := ForcedPlan(lx, s, maxSegments, bloat).value;
             && plan.suffixStart <= |s.segs|
             && PublishesCompaction(lx, s, plan.suffixStart, Max(plan.batchSizeBytes, 1), before, after)
    ensures OpensAsPlanned(lx, s, maxSegments, bloat, after)
    ensures Load(after).Ok? <==> CompactionFits(lx, s, maxSegments, bloat)
  {
    var plan := ForcedPlan(lx, s, maxSegments, bloat).value;
    CompactsOnto(lx, s, plan.suffixStart, Max(plan.batchSizeBytes, 1), before, after);
  }

  // The planned compaction took effect on disk.
  ghost predicate PlanPublished(lx: Lexer, s: Snapshot, maxSegments: nat, bloat: bool, before: State, after: State) {
    && ForcedPlan(lx, s, maxSegments, bloat).Some? && before.manifest.Some?
    && var plan := ForcedPlan(lx, s, maxSegments, bloat).value;
       && plan.suffixStart <= |s.segs| && CompactGuard(before.manifest.value, s, plan.suffixStart)
       && PublishesCompaction(lx, s, plan.suffixStart, Max(plan.batchSizeBytes, 1), before, after)
  }

  // Either way it is a step of the run model, whose memory is what was
  // reopened or what was held.
  lemma CompactionIsStep(lx: Lexer, s: Snapshot, maxSegments: nat, bloat: bool, before: State, after: State,
                         ending: Ending)
    requires if ending == NotPublished then SameIndex(before, after)
             else PlanPublished(lx, s, maxSegments, bloat, before, after)
    requires ending == Done ==> Load(after).Ok?
    ensures Step(lx, World(s, before), CompactEvent(maxSegments, bloat, ending),
                 World(if ending == Done then Load(after).value else s, after))
  {
  }

  lemma PublishedOutcome(lx: Lexer, s: Snapshot, maxSegments: nat, bloat: bool, before: State, after: State)
    requires LayersWF(lx, s) && SoundDisk(before) && PlanPublished(lx, s, maxSegments, bloat, before, after)
    ensures BaseOf(before).Ok? ==>
              && SoundDisk(after)
              && (Load(after).Ok? ==> LayersWF(lx, Load(after).value) && Synced(after, Load(after).value))
    ensures Synced(before, s) ==>
              && OpensAsPlanned(lx, s, maxSegments, bloat, after)
              && (Load(after).Ok? <==> CompactionFits(lx, s, maxSegments, bloat))
  {
    if BaseOf(before).Ok? {
      CompactionOutcome(lx, s, ForcedPlan(lx, s, maxSegments, bloat).value, before, after);
    }
    if Synced(before, s) {
      InStepCompaction(lx, s, maxSegments, bloat, before, after);
    }
  }

  // A handle in step passes the guard and has ids enough.
  lemma InStepProceeds(lx: Lexer, w: World, maxSegments: nat, bloat: bool)
    requires SegsWF(w.mem.segs)
    ensures Synced(w.st, w.mem) && CompactionFits(lx, w.mem, maxSegments, bloat) ==>
              var start := ForcedPlan(lx, w.mem, maxSegments, bloat).value.suffixStart;
              && w.st.manifest.Some? && CompactGuard(w.st.manifest.value, w.mem, start)
              && IdsSuffice(lx, w.mem, w.st.manifest.value, start)
  {
    if Synced(w.st, w.mem) && CompactionFits(lx, w.mem, maxSegments, bloat) {
      InStepShares(lx, w, maxSegments, bloat);
      SyncedPassesGuard(w.st, w.mem);
    }
  }

  // After a flush that was reopened a compaction never runs into the ceiling.
  lemma ReopenedFits(lx: Lexer, s: Snapshot, maxSegments: nat, bloat: bool)
    requires SegsWF(s.segs) && s.overlay.docs == [] && ForcedPlan(lx, s, maxSegments, bloat).Some?
    ensures CompactionFits(lx, s, maxSegments, bloat)
  {
    PlanStart(lx, s, maxSegments, bloat);
    SettledFits(lx, s, ForcedPlan(lx, s, maxSegments, bloat).value.suffixStart);
  }

  ghost function EndingOf(r: Result<Snapshot>, unpublished: bool, st: State): Ending {
    if r.Ok? then Done else if unpublished then NotPublished else if Load(st).Err? then Unopenable else LeftBehind
  }

  // The event of the run model that each ending amounts to.
  ghost function FlushEvent(ending: Ending): Event {
    if ending == NotPublished then Failing(true) else Flushing(ending == Done)
  }

  ghost function CompactEvent(maxSegments: nat, bloat: bool, ending: Ending): Event {
    if ending == NotPublished then Failing(false) else Compacting(maxSegments, bloat, ending == Done)
  }

  // The commit the index on disk claims to cover.
  function HeadOf(m: Option<Manifest>): Option<string> { if m.None? then None else m.value.baseCommit }

  // Why committing these edits fails, if it does.
  function PendingError(s: Snapshot, edits: seq<FileEdit>, classify: Path -> Outcome, lockFree: bool)
    : Option<IndexError>
  {
    if edits == [] then None
    else if !lockFree then Some(LockConflict)
    else I.CommitError(s, PathsOf(LastKinds(edits), Changed), PathsOf(LastKinds(edits), Deleted), classify)
  }

  // From `k` on: a flush, and a compaction if and only if the planner asks for
  // one afterwards.
  ghost predicate DurableFrom(lx: Lexer, worlds: seq<World>, events: seq<Event>, k: nat, maxSegments: nat,
                              bloat: bool)
  {
    && k < |events| < |worlds| && events[k] == Flushing(true)
    && events[k + 1..] == if PlanFor(lx, worlds[k + 1].mem, maxSegments, bloat).None? then []
                          else [Compacting(maxSegments, bloat, true)]
  }

  class Handle {
    const index: I.Index
    const dir: Directory

    constructor (index: I.Index, dir: Directory)
      ensures this.index == index && this.dir == dir
    {
      this.index, this.dir := index, dir;
    }

    // The layers in memory are well formed, and so is what opens on disk. The
    // handle need not be in step with it.
    ghost predicate Valid() reads this, index, dir { index.Valid() && dir.Valid() && SoundDisk(dir.Now()) }

    ghost function Now(): World reads this, index, dir { World(index.snapshot, dir.Now()) }

    // Opens, and holds what the handle believes is there.
    ghost predicate InStep() reads this, index, dir { Synced(dir.Now(), index.snapshot) && Load(dir.Now()).Ok? }

    // flush.rs:217-244; of its lock steps (see module Locks) only the last can
    // leave the handle behind: `shared` is whether the shared lock comes back.
    method RunDurableFlush(anchor: FlushAnchor, shared: bool) returns (r: Result<()>, ghost ending: Ending)
      requires Valid()
      modifies index, index.pending, dir
      ensures Valid() && index.pending.uncommitted == old(index.pending.uncommitted)
      ensures r.Ok? <==> ending == Done
      ensures Step(index.lx, old(Now()), FlushEvent(ending), Now())
      ensures ending == Done ==> InStep() && Load(dir.Now()) == Ok(index.snapshot)
      ensures ending != Done ==> index.snapshot == old(index.snapshot)
      ensures HeadOf(dir.manifest)
           == if ending != NotPublished && anchor.AdvanceHead? then anchor.head else HeadOf(old(dir.manifest))
      ensures ending != NotPublished ==>
                (ending == Unopenable <==> !CanFollow(old(index.snapshot).overlay, BaseOf(old(dir.Now()))))
      // In step, only a gap or the ceiling can keep the result from opening.
      ensures old(InStep()) && ending != NotPublished ==>
                (ending == Unopenable <==> !Reopens(old(index.snapshot).overlay))
      ensures old(InStep()) && ending != NotPublished ==> OpensFlushed(index.lx, old(index.snapshot), dir.Now())
      ensures index.readEpoch == None && index.nonDocPaths == {}
      // In step it succeeds unless a system call or the lock fails.
      ensures old(dir.Working()) && old(InStep()) && shared ==>
                dir.Working() && ending == if Reopens(old(index.snapshot).overlay) then Done else Unopenable
    {
      ghost var before, st0 := index.snapshot, dir.Now();
      var epoch, paths := index.TakeAnchorInputs();
      var rebuilt;
      ghost var cut;
      rebuilt, cut := FlushOverlayDurable(index.lx, dir, index.snapshot, anchor);
      ending := EndingOf(rebuilt, cut == |dir.past|, dir.Now());
      if ending != NotPublished {
        FlushOutcome(index.lx, before, st0, dir.Now());
      } else {
        SameIsSound(st0, dir.Now());
      }
      if rebuilt.Err? {
        return Err(rebuilt.error), ending;
      }
      if !shared {
        return Err(LockConflict), LeftBehind;
      }
      index.InstallRebuilt(rebuilt.value);
      r := Ok(());
    }

    // Plan and publish: the part of a compaction that changes the disk.
    method PublishPlanned(maxSegments: nat, bloat: bool) returns (rebuilt: Result<Snapshot>, ghost ending: Ending)
      requires Valid() && ForcedPlan(index.lx, index.snapshot, maxSegments, bloat).Some?
      modifies dir
      ensures dir.Valid() && (rebuilt.Ok? <==> ending == Done) && (rebuilt.Ok? ==> rebuilt == Load(dir.Now()))
      ensures ending == NotPublished ==> SameIndex(old(dir.Now()), dir.Now())
      ensures ending == Unopenable ==> Load(dir.Now()).Err?
      ensures ending == LeftBehind ==> Load(dir.Now()).Ok?
      ensures HeadOf(dir.manifest) == HeadOf(old(dir.manifest))
      ensures ending != NotPublished ==>
                PlanPublished(index.lx, index.snapshot, maxSegments, bloat, old(dir.Now()), dir.Now())
      ensures old(dir.Working()) && old(InStep()) && CompactionFits(index.lx, index.snapshot, maxSegments, bloat) ==>
                (ending == Done || ending == Unopenable) && dir.Working()
    {
      var plan := ForcedPlan(index.lx, index.snapshot, maxSegments, bloat).value;
      ghost var cut;
      InStepProceeds(index.lx, Now(), maxSegments, bloat);
      rebuilt, cut := CompactIndex(index.lx, dir, index.snapshot, plan);
      ending := EndingOf(rebuilt, cut == |dir.past|, dir.Now());
    }

    // mod.rs:351-376, likewise. Over an index that does not open, only what the
    // kept prefix holds decides whether the result is well formed.
    method RunCompaction(maxSegments: nat, bloat: bool, shared: bool) returns (r: Result<()>, ghost ending: Ending)
      requires Valid() && ForcedPlan(index.lx, index.snapshot, maxSegments, bloat).Some?
      modifies index, index.pending, dir
      ensures dir.Valid() && index.pending.uncommitted == old(index.pending.uncommitted)
      ensures BaseOf(old(dir.Now())).Ok? ==> Valid()
      ensures r.Ok? <==> ending == Done
      ensures Step(index.lx, old(Now()), CompactEvent(maxSegments, bloat, ending), Now())
      ensures ending == Done ==> Load(dir.Now()) == Ok(index.snapshot)
      ensures ending == Done && BaseOf(old(dir.Now())).Ok? ==> InStep()
      ensures ending != Done ==> index.snapshot == old(index.snapshot)
      ensures index.nonDocPaths == if ending == Done then {} else old(index.nonDocPaths)
      ensures HeadOf(dir.manifest) == HeadOf(old(dir.manifest))
      // In step it succeeds unless a system call or the lock fails.
      ensures old(dir.Working()) && old(InStep()) && shared
              && CompactionFits(index.lx, old(index.snapshot), maxSegments, bloat) ==>
                r.Ok? && dir.Working()
      ensures old(InStep()) && ending != NotPublished ==>
                (ending == Unopenable <==> !CompactionFits(index.lx, old(index.snapshot), maxSegments, bloat))
      ensures old(InStep()) && ending != NotPublished ==>
                OpensAsPlanned(index.lx, old(index.snapshot), maxSegments, bloat, dir.Now())
    {
      ghost var before, st0 := index.snapshot, dir.Now();
      var rebuilt;
      rebuilt, ending := PublishPlanned(maxSegments, bloat);
      if ending != NotPublished {
        PublishedOutcome(index.lx, before, maxSegments, bloat, st0, dir.Now());
      }
      if rebuilt.Ok? && !shared {
        ending := LeftBehind;
      }
      CompactionIsStep(index.lx, before, maxSegments, bloat, st0, dir.Now(), ending);
      if rebuilt.Ok? && shared {
        index.InstallRebuilt(rebuilt.value);
        r := Ok(());
      } else {
        r := Err(if rebuilt.Err? then rebuilt.error else LockConflict);
      }
    }

    // Commit first if anything is pending.
    method CommitPending(classify: Path -> Outcome, lockFree: bool, epoch: nat)
      returns (r: Result<()>, ghost worlds: seq<World>, ghost events: seq<Event>)
      requires Valid()
      modifies index, index.pending
      ensures Valid() && index.snapshot.segs == old(index.snapshot.segs)
      ensures IsRun(index.lx, worlds, events) && worlds[0] == old(Now()) && worlds[|events|] == Now()
      ensures r.Ok? ==> index.pending.uncommitted == []
      ensures |events| <= 1 && (r.Err? ==> index.pending.uncommitted != [] && events == [])
      ensures var error := PendingError(old(index.snapshot), old(index.pending.uncommitted), classify, lockFree);
              r == if error.Some? then Err(error.value) else Ok(())
      ensures r.Err? ==> LastKinds(index.pending.uncommitted) == LastKinds(old(index.pending.uncommitted))
      ensures Tracks(old(index.nonDocPaths), worlds, events, index.nonDocPaths)
    {
      worlds, events := [Now()], [];
      TracksNone(index.nonDocPaths, Now());
      if index.pending.uncommitted == [] {
        return Ok(()), worlds, events;
      }
      ghost var w, kinds := Now(), LastKinds(index.pending.uncommitted);
      assert index.pending.uncommitted + [] == index.pending.uncommitted;
      assert index.pending.uncommitted[|index.pending.uncommitted| - 1].path in kinds;
      r := index.CommitBatch(classify, lockFree, epoch, []);
      if r.Ok? {
        CommitRun(index.lx, w, PathsOf(kinds, Changed), PathsOf(kinds, Deleted), classify, Now());
        worlds, events := [w, Now()], [Committing(PathsOf(kinds, Changed), PathsOf(kinds, Deleted), classify)];
        TracksOne(old(index.nonDocPaths), w, events[0], Now());
      }
    }

    // Make what is committed durable, then compact if the plan asks for it.
    // Whichever step fails, what was done is a run. `shared` and `sharedAgain`
    // are whether the shared lock comes back after the one and the other.
    method FlushCommitted(maxSegments: nat, bloat: bool, shared: bool, sharedAgain: bool)
      returns (r: Result<()>, ghost worlds: seq<World>, ghost events: seq<Event>)
      requires Valid()
      modifies index, index.pending, dir
      ensures Valid() && index.pending.uncommitted == old(index.pending.uncommitted)
      ensures IsRun(index.lx, worlds, events) && worlds[0] == old(Now()) && worlds[|events|] == Now() && |events| > 0
      ensures r.Ok? ==> DurableFrom(index.lx, worlds, events, 0, maxSegments, bloat) && InStep()
      ensures HeadOf(dir.manifest) == HeadOf(old(dir.manifest))
      ensures Tracks(old(index.nonDocPaths), worlds, events, index.nonDocPaths)
      ensures old(dir.Working()) && old(InStep()) && shared && sharedAgain && r.Err? ==>
                events[0] == Flushing(false) && !Reopens(worlds[0].mem.overlay)
    {
      ghost var ending;
      ghost var w0, p0 := Now(), index.nonDocPaths;
      r, ending := RunDurableFlush(KeepHead, shared);
      ghost var w1, e0 := Now(), FlushEvent(ending);
      worlds, events := [w0, w1], [e0];
      OneStep(index.lx, w0, e0, w1);
      TracksOne(p0, w0, e0, w1);
      if r.Err? {
        return;
      }
      if PlanFor(index.lx, index.snapshot, maxSegments, bloat).Some? {
        ReopenedFits(index.lx, index.snapshot, maxSegments, bloat);
        r, ending := RunCompaction(maxSegments, bloat, sharedAgain);
        ghost var e1 := CompactEvent(maxSegments, bloat, ending);
        FlushThenCompact(index.lx, w0, e0, w1, e1, Now(), p0);
        worlds, events := [w0, w1, Now()], [e0, e1];
      }
    }

    // Commit what is pending, then make it durable, then compact if the plan
    // asks for it (flush.rs:169-197). A change set over the overlay's cap is
    // not an error here: nothing is flushed and the edits stay queued. Every
    // call is a run, errors included.
    method FlushOverlay(classify: Path -> Outcome, lockFree: bool, epoch: nat, maxSegments: nat, bloat: bool,
                        shared: bool, sharedAgain: bool)
      returns (r: Result<bool>, ghost worlds: seq<World>, ghost events: seq<Event>)
      requires Valid()
      modifies index, index.pending, dir
      ensures Valid()
      ensures IsRun(index.lx, worlds, events) && worlds[0] == old(Now()) && worlds[|events|] == Now()
      ensures Tracks(old(index.nonDocPaths), worlds, events, index.nonDocPaths)
      ensures r == Ok(true) ==>
                && InStep() && index.pending.uncommitted == []
                && exists k :: 0 <= k <= 1 && DurableFrom(index.lx, worlds, events, k, maxSegments, bloat)
      // What is flushed belongs to no commit.
      ensures HeadOf(dir.manifest) == HeadOf(old(dir.manifest))
      // Nothing to do: no document in the overlay, and no path waiting to be
      // made durable as gone.
      ensures r == Ok(false) && index.pending.uncommitted == [] ==>
                index.snapshot.overlay.docs == [] && index.nonDocPaths == {}
      // Edits still queued, exactly when the commit fails: nothing at all
      // happened, and being over the cap is no error.
      ensures var error := PendingError(old(index.snapshot), old(index.pending.uncommitted), classify, lockFree);
              && (error.Some? <==> index.pending.uncommitted != [])
              && (error.Some? ==> r == if error.value.OverlayFull? then Ok(false) else Err(error.value))
      ensures index.pending.uncommitted != [] ==>
                && r != Ok(true) && events == []
                && LastKinds(index.pending.uncommitted) == LastKinds(old(index.pending.uncommitted))
      // In step, with every system call and lock obtained, an error after the
      // commit means that what was flushed has gaps or passes the ceiling.
      ensures old(dir.Working()) && old(InStep()) && shared && sharedAgain && r.Err?
              && index.pending.uncommitted == [] ==>
                exists k :: 0 <= k < |events| && events[k] == Flushing(false) && !Reopens(worlds[k].mem.overlay)
    {
      var done;
      done, worlds, events := CommitPending(classify, lockFree, epoch);
      if done.Err? {
        return if done.error.OverlayFull? then Ok(false) else Err(done.error), worlds, events;
      }
      if index.snapshot.overlay.docs == [] && index.nonDocPaths == {} {
        return Ok(false), worlds, events;
      }
      ghost var k := |events|;
      r, worlds, events := FlushAfter(maxSegments, bloat, shared, sharedAgain, worlds, events, old(index.nonDocPaths));
      assert k < |events|;
    }

    method FlushAfter(maxSegments: nat, bloat: bool, shared: bool, sharedAgain: bool, ghost worlds0: seq<World>,
                      ghost events0: seq<Event>, ghost paths0: set<Path>)
      returns (r: Result<bool>, ghost worlds: seq<World>, ghost events: seq<Event>)
      requires Valid() && IsRun(index.lx, worlds0, events0) && worlds0[|events0|] == Now()
      requires Tracks(paths0, worlds0, events0, index.nonDocPaths)
      modifies index, index.pending, dir
      ensures Valid() && index.pending.uncommitted == old(index.pending.uncommitted)
      ensures r == Ok(true) || r.Err?
      ensures IsRun(index.lx, worlds, events) && worlds[0] == worlds0[0] && worlds[|events|] == Now()
      ensures |events0| < |events| && Tracks(paths0, worlds, events, index.nonDocPaths)
      ensures r.Ok? ==> InStep() && DurableFrom(index.lx, worlds, events, |events0|, maxSegments, bloat)
      ensures HeadOf(dir.manifest) == HeadOf(old(dir.manifest))
      ensures old(dir.Working()) && old(InStep()) && shared && sharedAgain && r.Err? ==>
                events[|events0|] == Flushing(false) && !Reopens(worlds[|events0|].mem.overlay)
    {
      var done;
      ghost var p1 := index.nonDocPaths;
      done, worlds, events := FlushCommitted(maxSegments, bloat, shared, sharedAgain);
      r := if done.Err? then Err(done.error) else Ok(true);
      JoinRuns(index.lx, worlds0, events0, worlds, events);
      TracksJoin(paths0, worlds0, events0, p1, worlds, events, index.nonDocPaths);
      ghost var first, worlds1, events1 := events[0], worlds, events;
      worlds, events := worlds0 + worlds[1..], events0 + events;
      assert events[|events0|] == first;
      if r.Ok? {
        DurableShift(index.lx, worlds0, events0, worlds1, events1, maxSegments, bloat);
      }
    }
  }

  lemma FlushThenCompact(lx: Lexer, w0: World, e0: Event, w1: World, e1: Event, w2: World, paths: set<Path>)
    requires Step(lx, w0, e0, w1) && Step(lx, w1, e1, w2) && e0.Flushing?
    ensures IsRun(lx, [w0, w1, w2], [e0, e1])
    ensures Tracks(paths, [w0, w1, w2], [e0, e1], NotesNext(NONE, e1, w2).paths)
  {
    TwoSteps(lx, w0, e0, w1, e1, w2);
    TracksOne(paths, w0, e0, w1);
    TracksOne({}, w1, e1, w2);
    TracksJoin(paths, [w0, w1], [e0], {}, [w1, w2], [e1], NotesNext(NONE, e1, w2).paths);
    assert [w0, w1] + [w1, w2][1..] == [w0, w1, w2] && [e0] + [e1] == [e0, e1];
  }

  lemma DurableShift(lx: Lexer, a: seq<World>, e: seq<Event>, b: seq<World>, f: seq<Event>, maxSegments: nat,
                     bloat: bool)
    requires |a| == |e| + 1 && |b| == |f| + 1 && DurableFrom(lx, b, f, 0, maxSegments, bloat)
    ensures DurableFrom(lx, a + b[1..], e + f, |e|, maxSegments, bloat)
  {
    assert (e + f)[|e| + 1..] == f[1..] && (a + b[1..])[|e| + 1] == b[1];
  }

  lemma CommitRun(lx: Lexer, w: World, changed: set<Path>, gone: set<Path>, classify: Path -> Outcome, w2: World)
    requires changed !! gone && I.IsCommitted(lx, w.mem, changed, gone, classify, w2.mem) && w2.st == w.st
    ensures IsRun(lx, [w, w2], [Committing(changed, gone, classify)])
  {
  }
}
