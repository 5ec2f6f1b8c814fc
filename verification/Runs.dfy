// Whole runs of one index: commits, flushes, compactions and restarts, in any
// order, against a plain map from paths to what is indexed for them.
module Runs {
  import opened Common
  import opened Snapshots
  import opened Overlays
  import opened Commit
  import opened Index
  import opened Disk
  import opened Flush
  import opened CompactPlan
  import opened Compact
  import opened CompactPublish

  // The snapshot in memory and the directory on disk.
  datatype World = World(mem: Snapshot, st: State)

  // A durable step that took effect can still fail to reopen what it wrote
  // (`reopened` is false); the handle then keeps the snapshot it had.
  datatype Event =
    | Committing(changed: set<Path>, gone: set<Path>, classify: Path -> Outcome)
    | Flushing(reopened: bool)
    | Compacting(maxSegments: nat, bloat: bool, reopened: bool)
    | Restarting
    // A durable write that did not get to its manifest; a flush had drained the
    // bookkeeping by then.
    | Failing(drained: bool)

  // The simple map in memory, the one a new process would see (missing when
  // the index on disk does not open), and whether the handle still describes
  // the base on disk. A handle that lost its place and writes all the same
  // leaves everything open; module Stale says exactly what comes of it.
  datatype Spec =
    | Spec(live: map<Path, Entry>, durable: Option<map<Path, Entry>>, inStep: bool)
    | Lost

  // What each event may do. The cases are the postconditions of `CommitBatch`,
  // `FlushOverlayDurable` and `CompactIndex`.
  ghost predicate Step(lx: Lexer, w: World, e: Event, w2: World) {
    match e
    case Committing(changed, gone, classify) =>
      changed !! gone && IsCommitted(lx, w.mem, changed, gone, classify, w2.mem) && w2.st == w.st
    case Flushing(reopened) =>
      && w.st.manifest.Some? && FlushGuard(w.st.manifest.value, w.mem)
      && PublishesFlush(lx, w.mem, w.st, w2.st) && w2.mem == Reopened(w, reopened, w2.st)
    case Compacting(maxSegments, bloat, reopened) =>
      && ForcedPlan(lx, w.mem, maxSegments, bloat).Some?
      && var plan := ForcedPlan(lx, w.mem, maxSegments, bloat).value;
         && w.st.manifest.Some? && CompactGuard(w.st.manifest.value, w.mem, plan.suffixStart)
         && PublishesCompaction(lx, w.mem, plan.suffixStart, Max(plan.batchSizeBytes, 1), w.st, w2.st)
         && w2.mem == Reopened(w, reopened, w2.st)
    case Restarting =>
      Load(w.st).Ok? && w2 == World(Load(w.st).value, w.st)
    case Failing(_) =>
      w2.mem == w.mem && SameIndex(w.st, w2.st)
  }

  // A process installs what it reopened, or keeps what it had.
  function Reopened(w: World, reopened: bool, st: State): Snapshot {
    if reopened && Load(st).Ok? then Load(st).value else w.mem
  }

  // What each event means for the maps. Whether a durable step leaves an index
  // that opens is decided by conditions on the snapshot it starts from.
  ghost function SpecNext(lx: Lexer, spec: Spec, w: World, e: Event): Spec {
    if spec.Lost? then Lost
    else
      match e
      case Committing(changed, gone, classify) =>
        spec.(live := Committed(lx, spec.live, changed, gone, classify))
      case Flushing(reopened) =>
        if spec.durable.None? then spec
        else if !spec.inStep then Lost
        else if Reopens(w.mem.overlay) then Spec(spec.live, Some(spec.live), reopened || w.mem.overlay.docs == [])
        else spec.(durable := None)
      case Compacting(maxSegments, bloat, reopened) =>
        if !SharesPrefix(lx, w, maxSegments, bloat) then
          if PrefixFails(lx, w, maxSegments, bloat) then spec.(durable := None) else Lost
        else if CompactionFits(lx, w.mem, maxSegments, bloat) then Spec(spec.live, Some(spec.live), reopened)
        else spec.(durable := None)
      case Restarting => if spec.durable.Some? then Spec(spec.durable.value, spec.durable, true) else spec
      case Failing(_) => spec
  }

  ghost predicate CompactionFits(lx: Lexer, s: Snapshot, maxSegments: nat, bloat: bool) {
    && ForcedPlan(lx, s, maxSegments, bloat).Some?
    && ForcedPlan(lx, s, maxSegments, bloat).value.suffixStart <= |s.segs|
    && FitsCeiling(lx, s, ForcedPlan(lx, s, maxSegments, bloat).value.suffixStart)
  }

  // Disk and memory hold the same segments before those to be rewritten: true
  // in step, and still true when a compaction is tried once more after it took
  // effect without being reopened, whether or not what it left opens.
  ghost predicate SharesPrefix(lx: Lexer, w: World, maxSegments: nat, bloat: bool) {
    && ForcedPlan(lx, w.mem, maxSegments, bloat).Some?
    && HasPrefix(w.st, w.mem.segs, ForcedPlan(lx, w.mem, maxSegments, bloat).value.suffixStart)
  }

  ghost predicate HasPrefix(st: State, segs: seq<Segment>, start: nat) {
    && st.manifest.Some? && start <= |st.manifest.value.segments| && start <= |segs|
    && BaseOf(PrefixOf(st, start)) == Ok(segs[..start]) && CountsRight(PrefixOf(st, start))
    && PrefixLimit(st.manifest.value, start) == Limit(segs[..start])
  }

  // The part of the index that a compaction would keep does not open.
  ghost predicate PrefixFails(lx: Lexer, w: World, maxSegments: nat, bloat: bool) {
    && ForcedPlan(lx, w.mem, maxSegments, bloat).Some? && w.st.manifest.Some?
    && var start := ForcedPlan(lx, w.mem, maxSegments, bloat).value.suffixStart;
       start <= |w.st.manifest.value.segments| && BaseOf(PrefixOf(w.st, start)) == Err(CorruptIndex)
  }

  ghost predicate OnDisk(lx: Lexer, st: State, m: map<Path, Entry>) {
    Load(st).Ok? && CountsRight(st) && SnapshotWF(lx, Load(st).value) && View(lx, Load(st).value) == m
  }

  ghost predicate Refines(lx: Lexer, w: World, spec: Spec) {
    match spec
    case Lost => true
    case Spec(live, durable, inStep) =>
      && SnapshotWF(lx, w.mem) && View(lx, w.mem) == live
      && match durable
         case Some(m) => OnDisk(lx, w.st, m) && (inStep ==> Synced(w.st, w.mem))
         case None => BaseOf(w.st) == Err(CorruptIndex) && Load(w.st) == Err(CorruptIndex)
  }

  // ---------------------------------------------------------------- every step refines

  lemma CommitRefines(lx: Lexer, w: World, spec: Spec, e: Event, w2: World)
    requires Refines(lx, w, spec) && e.Committing? && Step(lx, w, e, w2)
    ensures Refines(lx, w2, SpecNext(lx, spec, w, e))
  {
  }

  lemma FlushRefines(lx: Lexer, w: World, spec: Spec, e: Event, w2: World)
    requires Refines(lx, w, spec) && e.Flushing? && Step(lx, w, e, w2)
    ensures Refines(lx, w2, SpecNext(lx, spec, w, e))
  {
    if spec.Spec? && spec.durable.Some? && spec.inStep {
      InStepFlush(lx, w.mem, w.st, w2.st);
      if Reopens(w.mem.overlay) {
        FlushKeepsRows(lx, w.mem, Load(w2.st).value);
      }
    }
  }

  lemma CompactRefines(lx: Lexer, w: World, spec: Spec, e: Event, w2: World)
    requires Refines(lx, w, spec) && e.Compacting? && Step(lx, w, e, w2)
    ensures Refines(lx, w2, SpecNext(lx, spec, w, e))
  {
    if spec.Spec? {
      if SharesPrefix(lx, w, e.maxSegments, e.bloat) {
        SharedCompaction(lx, w, e, w2);
        PlannedRefines(lx, w, spec, e.maxSegments, e.bloat, e.reopened, w2);
      } else if PrefixFails(lx, w, e.maxSegments, e.bloat) {
        FailedPrefix(lx, w, e, w2);
        UnopenedRefines(lx, w, spec, e.reopened, w2);
      }
    }
  }

  lemma FailedPrefix(lx: Lexer, w: World, e: Event, w2: World)
    requires e.Compacting? && Step(lx, w, e, w2) && PrefixFails(lx, w, e.maxSegments, e.bloat)
    ensures BaseOf(w2.st) == Err(CorruptIndex)
  {
  }

  lemma PlannedRefines(lx: Lexer, w: World, spec: Spec, maxSegments: nat, bloat: bool, reopened: bool, w2: World)
    requires spec.Spec? && SnapshotWF(lx, w.mem) && View(lx, w.mem) == spec.live
    requires OpensAsPlanned(lx, w.mem, maxSegments, bloat, w2.st) && w2.mem == Reopened(w, reopened, w2.st)
    ensures Refines(lx, w2, if CompactionFits(lx, w.mem, maxSegments, bloat)
                            then Spec(spec.live, Some(spec.live), reopened) else spec.(durable := None))
  {
    if CompactionFits(lx, w.mem, maxSegments, bloat) {
      CompactedOnDisk(lx, w.mem, maxSegments, bloat, w2.st);
      InstalledRefines(lx, w, spec.live, reopened, w2);
    } else {
      UnopenedRefines(lx, w, spec, reopened, w2);
    }
  }

  // Something that opens is on disk, and installed if it was reopened.
  lemma InstalledRefines(lx: Lexer, w: World, live: map<Path, Entry>, reopened: bool, w2: World)
    requires SnapshotWF(lx, w.mem) && View(lx, w.mem) == live && w2.mem == Reopened(w, reopened, w2.st)
    requires OnDisk(lx, w2.st, live) && Synced(w2.st, Load(w2.st).value)
    ensures Refines(lx, w2, Spec(live, Some(live), reopened))
  {
  }

  lemma UnopenedRefines(lx: Lexer, w: World, spec: Spec, reopened: bool, w2: World)
    requires spec.Spec? && SnapshotWF(lx, w.mem) && View(lx, w.mem) == spec.live
    requires w2.mem == Reopened(w, reopened, w2.st) && BaseOf(w2.st) == Err(CorruptIndex)
    ensures Refines(lx, w2, spec.(durable := None))
  {
  }

  lemma SharedCompaction(lx: Lexer, w: World, e: Event, w2: World)
    requires e.Compacting? && Step(lx, w, e, w2) && SharesPrefix(lx, w, e.maxSegments, e.bloat)
    requires SegsWF(w.mem.segs)
    ensures OpensAsPlanned(lx, w.mem, e.maxSegments, e.bloat, w2.st)
  {
    var plan := ForcedPlan(lx, w.mem, e.maxSegments, e.bloat).value;
    CompactsShared(lx, w.mem, plan.suffixStart, Max(plan.batchSizeBytes, 1), w.st, w2.st);
  }

  // Over a disk with the same prefix, the result is a compaction of `s`.
  lemma CompactsShared(lx: Lexer, s: Snapshot, start: nat, batch: nat, before: State, after: State)
    requires HasPrefix(before, s.segs, start) && PublishesCompaction(lx, s, start, batch, before, after)
    requires SegsWF(s.segs)
    ensures OpensCompacted(lx, s, start, batch, after)
  {
    SegsWFPrefix(s.segs, start);
    LimitBounds(s.segs[..start]);
    assert |s.segs[..start]| == start;
  }

  ghost predicate OpensAsPlanned(lx: Lexer, s: Snapshot, maxSegments: nat, bloat: bool, st: State) {
    && ForcedPlan(lx, s, maxSegments, bloat).Some?
    && var plan := ForcedPlan(lx, s, maxSegments, bloat).value;
       plan.suffixStart <= |s.segs| && OpensCompacted(lx, s, plan.suffixStart, Max(plan.batchSizeBytes, 1), st)
  }

  lemma CompactedOnDisk(lx: Lexer, s: Snapshot, maxSegments: nat, bloat: bool, st: State)
    requires SnapshotWF(lx, s) && OpensAsPlanned(lx, s, maxSegments, bloat, st)
    requires CompactionFits(lx, s, maxSegments, bloat)
    ensures OnDisk(lx, st, View(lx, s)) && Synced(st, Load(st).value)
  {
    var plan := ForcedPlan(lx, s, maxSegments, bloat).value;
    PlanIsSafe(lx, s, maxSegments, bloat);
    CompactionKeepsMeaning(lx, s, plan.suffixStart, Max(plan.batchSizeBytes, 1), Load(st).value);
  }

  // A handle in step shares every prefix, so nothing it does is lost.
  lemma InStepShares(lx: Lexer, w: World, maxSegments: nat, bloat: bool)
    requires SegsWF(w.mem.segs) && Synced(w.st, w.mem) && ForcedPlan(lx, w.mem, maxSegments, bloat).Some?
    ensures SharesPrefix(lx, w, maxSegments, bloat)
  {
    var start := ForcedPlan(lx, w.mem, maxSegments, bloat).value.suffixStart;
    OpenSegmentsShape(w.st.files, w.st.manifest.value.segments);
    PlanStart(lx, w.mem, maxSegments, bloat);
    PrefixOpens(w.st, start);
  }

  lemma InStepNotLost(lx: Lexer, w: World, spec: Spec, e: Event, w2: World)
    requires Refines(lx, w, spec) && Step(lx, w, e, w2) && spec.Spec? && spec.durable.Some? && spec.inStep
    ensures SpecNext(lx, spec, w, e).Spec?
  {
    if e.Compacting? {
      InStepIsSynced(lx, w, spec);
      HasPlan(lx, w, e, w2);
      InStepShares(lx, w, e.maxSegments, e.bloat);
    }
    NotLost(lx, spec, w, e);
  }

  lemma NotLost(lx: Lexer, spec: Spec, w: World, e: Event)
    requires spec.Spec? && spec.inStep && (e.Compacting? ==> SharesPrefix(lx, w, e.maxSegments, e.bloat))
    ensures SpecNext(lx, spec, w, e).Spec?
  {
  }

  lemma InStepIsSynced(lx: Lexer, w: World, spec: Spec)
    requires Refines(lx, w, spec) && spec.Spec? && spec.durable.Some? && spec.inStep
    ensures SegsWF(w.mem.segs) && Synced(w.st, w.mem)
  {
  }

  lemma HasPlan(lx: Lexer, w: World, e: Event, w2: World)
    requires Step(lx, w, e, w2) && e.Compacting?
    ensures ForcedPlan(lx, w.mem, e.maxSegments, e.bloat).Some?
  {
  }

  lemma RestartRefines(lx: Lexer, w: World, spec: Spec, w2: World)
    requires Refines(lx, w, spec) && Step(lx, w, Restarting, w2)
    ensures Refines(lx, w2, SpecNext(lx, spec, w, Restarting))
  {
  }

  lemma FailRefines(lx: Lexer, w: World, spec: Spec, e: Event, w2: World)
    requires Refines(lx, w, spec) && e.Failing? && Step(lx, w, e, w2)
    ensures Refines(lx, w2, SpecNext(lx, spec, w, e))
  {
  }

  lemma StepRefines(lx: Lexer, w: World, spec: Spec, e: Event, w2: World)
    requires Refines(lx, w, spec) && Step(lx, w, e, w2)
    ensures Refines(lx, w2, SpecNext(lx, spec, w, e))
  {
    match e
    case Committing(_, _, _) => CommitRefines(lx, w, spec, e, w2);
    case Flushing(_) => FlushRefines(lx, w, spec, e, w2);
    case Compacting(_, _, _) => CompactRefines(lx, w, spec, e, w2);
    case Restarting => RestartRefines(lx, w, spec, w2);
    case Failing(_) => FailRefines(lx, w, spec, e, w2);
  }

  // ---------------------------------------------------------------- every run refines

  ghost predicate IsRun(lx: Lexer, worlds: seq<World>, events: seq<Event>) {
    && |worlds| == |events| + 1
    && forall i {:trigger events[i]} :: 0 <= i < |events| ==> Step(lx, worlds[i], events[i], worlds[i + 1])
  }

  ghost function SpecAfter(lx: Lexer, spec: Spec, worlds: seq<World>, events: seq<Event>): Spec
    requires |worlds| == |events| + 1
  {
    if |events| == 0 then spec
    else
      var n := |events| - 1;
      SpecNext(lx, SpecAfter(lx, spec, worlds[..n + 1], events[..n]), worlds[n], events[n])
  }

  lemma RunPrefix(lx: Lexer, worlds: seq<World>, events: seq<Event>)
    requires IsRun(lx, worlds, events) && |events| > 0
    ensures var n := |events| - 1;
            IsRun(lx, worlds[..n + 1], events[..n]) && Step(lx, worlds[n], events[n], worlds[n + 1])
  {
    var n := |events| - 1;
    forall i | 0 <= i < n ensures Step(lx, worlds[..n + 1][i], events[..n][i], worlds[..n + 1][i + 1]) {
      assert Step(lx, worlds[i], events[i], worlds[i + 1]);
    }
  }

  lemma OneStep(lx: Lexer, w: World, e: Event, w2: World)
    requires Step(lx, w, e, w2)
    ensures IsRun(lx, [w, w2], [e])
  {
  }

  // One more step, in any spelling of the longer run.
  lemma RunSnoc(lx: Lexer, a: seq<World>, e: seq<Event>, last: Event, w: World, b: seq<World>, f: seq<Event>)
    requires IsRun(lx, a, e) && Step(lx, a[|e|], last, w) && b == a + [w] && f == e + [last]
    ensures IsRun(lx, b, f)
  {
    forall i | 0 <= i < |f| ensures Step(lx, b[i], f[i], b[i + 1]) {
      if i < |e| {
        StepInRun(lx, a, e, i, b[i], f[i], b[i + 1]);
      } else {
        StepSame(lx, a[|e|], last, w, b[i], f[i], b[i + 1]);
      }
    }
  }

  lemma StepInRun(lx: Lexer, a: seq<World>, e: seq<Event>, i: nat, x: World, f: Event, x2: World)
    requires IsRun(lx, a, e) && i < |e| && x == a[i] && f == e[i] && x2 == a[i + 1]
    ensures Step(lx, x, f, x2)
  {
  }

  lemma TwoSteps(lx: Lexer, w0: World, e0: Event, w1: World, e1: Event, w2: World)
    requires Step(lx, w0, e0, w1) && Step(lx, w1, e1, w2)
    ensures IsRun(lx, [w0, w1, w2], [e0, e1])
  {
    OneStep(lx, w0, e0, w1);
    RunSnoc(lx, [w0, w1], [e0], e1, w2, [w0, w1, w2], [e0, e1]);
  }

  lemma JoinRuns(lx: Lexer, a: seq<World>, e: seq<Event>, b: seq<World>, f: seq<Event>)
    requires IsRun(lx, a, e) && IsRun(lx, b, f) && a[|e|] == b[0]
    ensures IsRun(lx, a + b[1..], e + f)
  {
    forall i | 0 <= i < |e + f| ensures Step(lx, (a + b[1..])[i], (e + f)[i], (a + b[1..])[i + 1]) {
      JoinedStep(lx, a, e, b, f, i);
    }
  }

  lemma JoinedStep(lx: Lexer, a: seq<World>, e: seq<Event>, b: seq<World>, f: seq<Event>, i: nat)
    requires IsRun(lx, a, e) && IsRun(lx, b, f) && a[|e|] == b[0] && i < |e + f|
    ensures Step(lx, (a + b[1..])[i], (e + f)[i], (a + b[1..])[i + 1])
  {
    var c := a + b[1..];
    if i < |e| {
      StepSame(lx, a[i], e[i], a[i + 1], c[i], (e + f)[i], c[i + 1]);
    } else {
      var k := i - |e|;
      StepSame(lx, b[k], f[k], b[k + 1], c[i], (e + f)[i], c[i + 1]);
    }
  }

  lemma StepSame(lx: Lexer, w: World, e: Event, w2: World, x: World, f: Event, x2: World)
    requires Step(lx, w, e, w2) && w == x && e == f && w2 == x2
    ensures Step(lx, x, f, x2)
  {
  }

  // Main refinement theorem: after any run the index in memory means the
  // simple map, and the index on disk means the map of the last durable step,
  // or does not open if that step left a gap or passed the ceiling; until a
  // handle that lost its place writes over what it no longer knows.
  lemma {:induction false} RunRefines(lx: Lexer, spec: Spec, worlds: seq<World>, events: seq<Event>)
    requires IsRun(lx, worlds, events) && Refines(lx, worlds[0], spec)
    ensures Refines(lx, worlds[|events|], SpecAfter(lx, spec, worlds, events))
  {
    if |events| != 0 {
      var n := |events| - 1;
      RunPrefix(lx, worlds, events);
      RunRefines(lx, spec, worlds[..n + 1], events[..n]);
      StepRefines(lx, worlds[n], SpecAfter(lx, spec, worlds[..n + 1], events[..n]), events[n], worlds[n + 1]);
    }
  }

  // No commit of the run changes or deletes the path.
  ghost predicate Untouched(events: seq<Event>, p: Path) {
    forall i :: 0 <= i < |events| && events[i].Committing? ==> p !in events[i].changed + events[i].gone
  }

  // Such a path keeps its entry, in memory and for a new process.
  ghost predicate Keeps(spec: Spec, p: Path, e: Entry) {
    spec.Spec? ==> Find(spec.live, p) == Some(e) && (spec.durable.Some? ==> Find(spec.durable.value, p) == Some(e))
  }

  lemma {:induction false} UntouchedStays(lx: Lexer, spec: Spec, worlds: seq<World>, events: seq<Event>, p: Path)
    requires |worlds| == |events| + 1 && Untouched(events, p) && spec.Spec? && p in spec.live
    requires Keeps(spec, p, spec.live[p])
    ensures Keeps(SpecAfter(lx, spec, worlds, events), p, spec.live[p])
  {
    if |events| != 0 {
      var n := |events| - 1;
      UntouchedStays(lx, spec, worlds[..n + 1], events[..n], p);
      UntouchedStep(lx, SpecAfter(lx, spec, worlds[..n + 1], events[..n]), worlds[n], events[n], p, spec.live[p]);
    }
  }

  lemma UntouchedStep(lx: Lexer, spec: Spec, w: World, e: Event, p: Path, entry: Entry)
    requires Keeps(spec, p, entry) && (e.Committing? ==> p !in e.changed + e.gone)
    ensures Keeps(SpecNext(lx, spec, w, e), p, entry)
  {
  }

  // So every gram query, after any run, finds exactly the paths whose indexed
  // content holds the gram.
  lemma RunQueries(lx: Lexer, spec: Spec, worlds: seq<World>, events: seq<Event>, g: Gram)
    requires IsRun(lx, worlds, events) && Refines(lx, worlds[0], spec)
    ensures var after := SpecAfter(lx, spec, worlds, events);
            after.Spec? ==>
              QueryPaths(lx, worlds[|events|].mem, g) == set p | p in after.live && g in after.live[p].grams
  {
    RunRefines(lx, spec, worlds, events);
    if SpecAfter(lx, spec, worlds, events).Spec? {
      QueryExact(lx, worlds[|events|].mem, g);
    }
  }

  // ---------------------------------------------------------------- after a step that was not reopened

  // Memory and manifest disagree on how many segments there are.
  ghost predicate Behind(w: World) { w.st.manifest.Some? && |w.st.manifest.value.segments| != |w.mem.segs| }

  lemma BehindIsRefused(lx: Lexer, w: World, e: Event, w2: World)
    requires Behind(w) && Step(lx, w, e, w2) && e != Restarting
    ensures (e.Committing? || e.Failing?) && Behind(w2)
  {
  }

  // A handle that flushed documents and holds what it held before, because
  // what it wrote does not open or was not reopened, does no more harm: both
  // guards refuse it, and nothing durable happens until it restarts.
  lemma {:induction false} LeftBehindIsRefused(lx: Lexer, worlds: seq<World>, events: seq<Event>, k: nat)
    requires IsRun(lx, worlds, events) && 0 < k < |events| && events[0].Flushing?
    requires worlds[0].mem.overlay.docs != [] && worlds[1].mem == worlds[0].mem
    requires forall i :: 0 < i <= k ==> events[i] != Restarting
    ensures (events[k].Committing? || events[k].Failing?) && Behind(worlds[k]) && Behind(worlds[k + 1])
  {
    assert Step(lx, worlds[0], events[0], worlds[1]);
    if k > 1 {
      LeftBehindIsRefused(lx, worlds, events, k - 1);
    }
    BehindIsRefused(lx, worlds[k], events[k], worlds[k + 1]);
  }

  // A compaction in step whose result does not open, or was not reopened,
  // leaves a handle that can try the same again: it shares the prefix still,
  // so what comes of it is decided as before. The guard need not refuse it.
  lemma RetriedCompaction(lx: Lexer, w: World, e: Event, w2: World)
    requires SegsWF(w.mem.segs) && e.Compacting? && SharesPrefix(lx, w, e.maxSegments, e.bloat)
    requires Step(lx, w, e, w2) && w2.mem == w.mem
    ensures SharesPrefix(lx, w2, e.maxSegments, e.bloat)
  {
  }

  // ---------------------------------------------------------------- the gap

  // After any commit of any files the next flush publishes an index that
  // opens exactly in these cases. Only the delta path, taken when the base is
  // the one the overlay was built on, can go wrong.
  ghost predicate NextReopens(s: Snapshot, files: seq<NewFile>, touched: set<Path>, ov: Overlay) {
    ov.docs == []
    || (ov.docs[0].id + |ov.docs| <= MAX_TOTAL_DOCS
        && (if Limit(s.segs) != s.overlay.baseCount then true
            else if |files| == 0 then StaysTogether(s.overlay.docs, touched)
            else DropsPrefix(s.overlay.docs, touched) && TailIsDense(s.overlay.docs, touched, s.overlay.nextId)))
  }

  lemma NextReopensExact(lx: Lexer, s: Snapshot, files: seq<NewFile>, touched: set<Path>, ov: Overlay)
    requires SnapshotWF(lx, s) && IsNextOverlay(lx, s, files, touched, ov)
    ensures Reopens(ov) <==> NextReopens(s, files, touched, ov)
  {
    if Limit(s.segs) != s.overlay.baseCount {
      FullIsGapless(lx, Limit(s.segs), s.overlay, files, touched);
    } else if |files| == 0 {
      DeletionStaysConsecutive(s.overlay.docs, touched);
      assert ov.docs == Kept(s.overlay.docs, touched);
    } else {
      DeltaGapless(lx, s.overlay, files, touched);
    }
  }

  // For one, committing the newest of two or more overlay files once more
  // leaves a gap; flushing then publishes an index nobody can open.
  lemma SecondEditBreaksFlush(lx: Lexer, s: Snapshot, file: NewFile, ov: Overlay, before: State, after: State)
    requires SnapshotWF(lx, s) && |s.overlay.docs| >= 2 && s.overlay.baseCount == Limit(s.segs)
    requires file.path == s.overlay.docs[|s.overlay.docs| - 1].path && IsNextOverlay(lx, s, [file], {file.path}, ov)
    requires BaseOf(before).Ok? && PublishesFlush(lx, NextSnapshot(s, {file.path}, ov), before, after)
    ensures Load(after) == Err(CorruptIndex)
  {
    var docs := s.overlay.docs;
    var n := |docs| - 1;
    NextReopensExact(lx, s, [file], {file.path}, ov);
    OverlayPathsDistinct(lx, s, n - 1, n);
    assert !DropsPrefix(docs, {file.path}) by {
      assert docs[n].path in {file.path} && docs[n - 1].path !in {file.path};
    }
    assert ov.docs[|ov.docs| - 1] == NewDoc(lx, file, s.overlay.nextId);
  }

  lemma OverlayPathsDistinct(lx: Lexer, s: Snapshot, i: nat, j: nat)
    requires SnapshotWF(lx, s) && i < j < |s.overlay.docs|
    ensures s.overlay.docs[i].path != s.overlay.docs[j].path
  {
    var n := |Keep(AllRows(s.segs), s.deleted)|;
    var rows := Rows(lx, s);
    assert rows[n + i] == OverlayRow(lx, s.overlay.docs[i]) && rows[n + j] == OverlayRow(lx, s.overlay.docs[j]);
    assert rows[n + i].path != rows[n + j].path;
  }
}
