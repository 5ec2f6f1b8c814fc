// Concrete runs on which the promises of the code fail. Each starts from a
// built index, is made of actual files and manifests, and is a run of the
// model in `Runs`; the general conditions are in `Stale`, `Overlays` and
// `Build`.
module Examples {
  import opened Common
  import opened Snapshots
  import opened Overlays
  import opened Commit
  import opened Index
  import opened Disk
  import opened Flush
  import opened CompactPlan
  import opened Packing
  import opened Compact
  import opened CompactPublish
  import opened Runs
  import opened Stale
  import opened Plain
  import Build

  // A live document of one byte.
  function Live(id: nat, name: string): Row { PlainRow(PlainDoc(id, name)) }

  function Record(name: string): Build.FileRecord { Build.FileRecord(Path(name), Path(name), 1) }

  // Every file reads as the same byte.
  const READS: Path -> Outcome := (p: Path) => Indexed([7])
  const OPENS: Build.Reader := (f: Build.FileRecord) => Some([7])

  // ---------------------------------------------------------------- steps

  // What the overlay algorithm makes of a commit is a commit.
  lemma OverlayCommits(lx: Lexer, s: Snapshot, files: seq<NewFile>, changed: set<Path>, gone: set<Path>,
                       classify: Path -> Outcome, ov: Overlay)
    requires SnapshotWF(lx, s) && changed !! gone && Reads(files, changed, classify)
    requires IsNextOverlay(lx, s, files, changed + gone, ov)
    ensures IsCommitted(lx, s, changed, gone, classify, NextSnapshot(s, changed + gone, ov))
  {
    CommitMeaning(lx, s, files, changed, gone, classify, ov);
    NextOverlaySize(lx, s, files, changed, gone, classify);
  }

  lemma CommitIsStep(lx: Lexer, w: World, changed: set<Path>, gone: set<Path>, classify: Path -> Outcome, w2: World)
    requires changed !! gone && IsCommitted(lx, w.mem, changed, gone, classify, w2.mem) && w2.st == w.st
    ensures Step(lx, w, Committing(changed, gone, classify), w2)
  {
  }

  // Committing one file.
  lemma CommitOne(w: World, p: Path, ov: Overlay, w2: World)
    requires SnapshotWF(PLAIN, w.mem) && IsNextOverlay(PLAIN, w.mem, [NewFile(p, [7])], {p} + {}, ov)
    requires w2 == World(NextSnapshot(w.mem, {p} + {}, ov), w.st)
    ensures Step(PLAIN, w, Committing({p}, {}, READS), w2) && SnapshotWF(PLAIN, w2.mem)
  {
    assert [NewFile(p, [7])][0].path == p;
    assert Reads([NewFile(p, [7])], {p}, READS);
    OverlayCommits(PLAIN, w.mem, [NewFile(p, [7])], {p}, {}, READS, ov);
    CommitIsStep(PLAIN, w, {p}, {}, READS, w2);
  }

  // The rows of two plain segments with nothing on top.
  lemma TwoPlain(s: Snapshot, a: seq<Doc>, n: nat, b: seq<Doc>)
    requires s == Snapshot([PlainSeg(0, a), PlainSeg(n, b)], {}, EmptyOverlay)
    ensures AllRows(s.segs) == Rows(PLAIN, s) == PlainRows(a) + PlainRows(b)
    ensures AllRows(s.segs[1..]) == PlainRows(b)
  {
    PlainSegRows(0, a);
    PlainSegRows(n, b);
    TwoSegments(PlainSeg(0, a), PlainSeg(n, b));
    TwoSegments(PlainSeg(n, b), PlainSeg(n, b));
    assert s.segs[1..] == [PlainSeg(n, b)];
    AllShown(s);
  }

  lemma AllShown(s: Snapshot)
    requires s.deleted == {} && s.overlay == EmptyOverlay
    ensures Rows(PLAIN, s) == AllRows(s.segs)
  {
    KeepAll(AllRows(s.segs), {});
    assert OverlayRows(PLAIN, EmptyOverlay.docs) == [];
  }

  // A compaction of `s` over a readable base that shares its first `start`
  // segments with the result.
  lemma OntoIsPublished(s: Snapshot, start: nat, batch: nat, before: State, after: State)
    requires start <= |s.segs| && BaseOf(before).Ok? && CountsRight(before) && BaseOf(after).Ok? && CountsRight(after)
    requires start <= |before.manifest.value.segments| && start <= |after.manifest.value.segments|
    requires start <= |BaseOf(before).value|
    requires SegsWF(BaseOf(before).value) && Load(after).Ok?
    requires IsCompactedOnto(PLAIN, s, BaseOf(before).value, start, batch, Load(after).value)
    requires FitsAfter(PLAIN, s, start, Limit(BaseOf(before).value[..start]))
    ensures PublishesCompaction(PLAIN, s, start, batch, before, after)
  {
    PrefixOpens(before, start);
    PrefixOpens(after, start);
    assert |BaseOf(before).value[..start]| == start;
  }

  lemma ThreeStepRun(lx: Lexer, spec: Spec, w0: World, e0: Event, w1: World, e1: Event, w2: World, e2: Event, w3: World)
    requires Step(lx, w0, e0, w1) && Step(lx, w1, e1, w2) && Step(lx, w2, e2, w3)
    ensures IsRun(lx, [w0, w1, w2, w3], [e0, e1, e2])
    ensures SpecAfter(lx, spec, [w0, w1, w2, w3], [e0, e1, e2])
         == SpecNext(lx, SpecNext(lx, SpecNext(lx, spec, w0, e0), w1, e1), w2, e2)
  {
    TwoSteps(lx, w0, e0, w1, e1, w2);
    RunSnoc(lx, [w0, w1, w2], [e0, e1], e2, w3, [w0, w1, w2, w3], [e0, e1, e2]);
    ThreeSpecs(lx, spec, w0, e0, w1, e1, w2, e2, w3);
  }

  lemma ThreeSpecs(lx: Lexer, spec: Spec, w0: World, e0: Event, w1: World, e1: Event, w2: World, e2: Event, w3: World)
    ensures SpecAfter(lx, spec, [w0, w1, w2, w3], [e0, e1, e2])
         == SpecNext(lx, SpecNext(lx, SpecNext(lx, spec, w0, e0), w1, e1), w2, e2)
  {
    SpecAfterSnoc(lx, spec, [w0], [], e0, w1);
    SpecAfterSnoc(lx, spec, [w0, w1], [e0], e1, w2);
    SpecAfterSnoc(lx, spec, [w0, w1, w2], [e0, e1], e2, w3);
    assert [w0] + [w1] == [w0, w1] && [w0, w1] + [w2] == [w0, w1, w2] && [w0, w1, w2] + [w3] == [w0, w1, w2, w3];
    assert [] + [e0] == [e0] && [e0] + [e1] == [e0, e1] && [e0, e1] + [e2] == [e0, e1, e2];
  }

  lemma SpecAfterSnoc(lx: Lexer, spec: Spec, worlds: seq<World>, events: seq<Event>, e: Event, w: World)
    requires |worlds| == |events| + 1
    ensures SpecAfter(lx, spec, worlds + [w], events + [e])
         == SpecNext(lx, SpecAfter(lx, spec, worlds, events), worlds[|events|], e)
  {
    assert (worlds + [w])[..|events| + 1] == worlds && (events + [e])[..|events|] == events;
  }

  // ---------------------------------------------------------------- from the build to a handle left behind

  const SEG0 := PlainSeg(0, [PlainDoc(0, "x")])
  const SEG1 := PlainSeg(1, [PlainDoc(1, "d"), PlainDoc(2, "e")])
  const FIRST := Snapshot([SEG0, SEG1], {}, EmptyOverlay)

  // "d" was edited: its base document is hidden, its new content is in the overlay.
  const EDITED := Overlay([OverlayDoc(3, Path("d"), [7], {})], map[], 4, 3)
  const BEFORE := Snapshot([SEG0, SEG1], {1}, EDITED)

  // Compacting from segment 1 on moves "e" to id 1 and "d" to id 2.
  const MERGED := PlainSeg(1, [PlainDoc(1, "e"), PlainDoc(2, "d")])
  const COMPACTED := Snapshot([SEG0, MERGED], {}, EmptyOverlay)

  const DELTA := PlainSeg(3, [PlainDoc(3, "d")])
  const RESULT := Snapshot([SEG0, MERGED, DELTA], {1}, EmptyOverlay)

  const FILES0: map<Name, File> := FilesOf(0, SEG0) + FilesOf(1, SEG1)
  const FILES1: map<Name, File> := FilesOf(0, SEG0) + FilesOf(2, MERGED)
  const FILES2: map<Name, File> := FILES1 + FilesOf(3, DELTA) + map[DeletesFile(4) := Deletes({1})]

  const DISK0 := State(FILES0, Some(Manifest([RefTo(0, SEG0), RefTo(1, SEG1)], None, None, 0)))
  const DISK1 := State(FILES1, Some(Manifest([RefTo(0, SEG0), RefTo(2, MERGED)], None, None, 0)))
  const DISK2 := State(FILES2, Some(Manifest([RefTo(0, SEG0), RefTo(2, MERGED), RefTo(3, DELTA)],
                                             Some(DeletesFile(4)), None, 1)))

  const START := World(FIRST, DISK0)
  const W0 := World(BEFORE, DISK0)
  const W1 := World(BEFORE, DISK1)
  const W2 := World(RESULT, DISK2)

  const EDIT := Committing({Path("d")}, {}, READS)
  const LISTED := [Record("x"), Record("d"), Record("e")]

  lemma FirstRows()
    ensures AllRows(FIRST.segs) == Rows(PLAIN, FIRST) == [Live(0, "x"), Live(1, "d"), Live(2, "e")]
    ensures AllRows(FIRST.segs[1..]) == [Live(1, "d"), Live(2, "e")]
    ensures SnapshotWF(PLAIN, FIRST)
  {
    FirstAllRows();
    EmptyOverlayWF(PLAIN, Limit(FIRST.segs));
  }

  lemma FirstAllRows()
    ensures AllRows(FIRST.segs) == Rows(PLAIN, FIRST) == [Live(0, "x"), Live(1, "d"), Live(2, "e")]
    ensures AllRows(FIRST.segs[1..]) == [Live(1, "d"), Live(2, "e")] && SegsWF(FIRST.segs)
  {
    TwoPlain(FIRST, SEG0.docs, 1, SEG1.docs);
    FirstPlainRows();
  }

  lemma FirstPlainRows()
    ensures PlainRows(SEG0.docs) == [Live(0, "x")] && PlainRows(SEG1.docs) == [Live(1, "d"), Live(2, "e")]
  {
  }

  lemma Disk0Opens()
    ensures Load(DISK0) == Ok(FIRST) && Synced(DISK0, BEFORE)
  {
    OpenTwo(FILES0, 0, SEG0, 1, SEG1);
  }

  lemma ListedRows()
    ensures Build.BuiltRows(PLAIN, LISTED, OPENS, 0) == [Live(0, "x"), Live(1, "d"), Live(2, "e")]
  {
    assert LISTED[..2] == [Record("x"), Record("d")];
    assert LISTED[..2][..1] == [Record("x")] && LISTED[..2][..1][..0] == [];
    assert Build.BuiltRows(PLAIN, LISTED[..2][..1], OPENS, 0) == [Live(0, "x")];
    assert Build.BuiltRows(PLAIN, LISTED[..2], OPENS, 0) == [Live(0, "x"), Live(1, "d")];
  }

  // The index is one that a build of three files leaves, in two batches.
  lemma FirstIsBuilt()
    ensures Build.OpensBuilt(PLAIN, LISTED, OPENS, START.st) && Load(START.st) == Ok(START.mem)
    ensures Build.NoRepeat(LISTED, OPENS)
  {
    FirstRows();
    Disk0Opens();
    ListedRows();
    Build.BuiltIsWF(PLAIN, LISTED, OPENS, FIRST);
  }

  lemma EditedOverlay()
    ensures IsNextOverlay(PLAIN, FIRST, [NewFile(Path("d"), [7])], {Path("d")} + {}, EDITED)
  {
    assert EDITED.docs == NextDocs(PLAIN, 3, EmptyOverlay, [NewFile(Path("d"), [7])], {Path("d")} + {});
  }

  lemma HidesD()
    ensures IdsWithPaths(FIRST.segs, {Path("d")} + {}) == {1}
  {
    FirstRows();
    assert AllRows(FIRST.segs)[1] in AllRows(FIRST.segs);
  }

  lemma EditStep()
    ensures Step(PLAIN, START, EDIT, W0) && SnapshotWF(PLAIN, BEFORE)
  {
    FirstRows();
    EditedOverlay();
    HidesD();
    CommitOne(START, Path("d"), EDITED, W0);
  }

  // Hiding id 1 drops the "d" of the base.
  lemma WithoutD(x: Row, d: Row, e: Row)
    requires x.id != 1 && d.id == 1 && e.id != 1
    ensures Keep([x, d, e], {1}) == [x, e] && Keep([d, e], {1}) == [e]
  {
    KeepOne(x, {1});
    KeepOne(d, {1});
    KeepSnoc([x], d, {1});
    KeepSnoc([x, d], e, {1});
    KeepSnoc([d], e, {1});
    assert [x] + [d] == [x, d] && [x, d] + [e] == [x, d, e] && [d] + [e] == [d, e];
  }

  lemma BeforeRows()
    ensures SuffixRows(PLAIN, BEFORE, 1) == [Live(2, "e"), Live(3, "d")]
    ensures Rows(PLAIN, BEFORE) == [Live(0, "x"), Live(2, "e"), Live(3, "d")]
  {
    FirstRows();
    WithoutD(Live(0, "x"), Live(1, "d"), Live(2, "e"));
    assert OverlayRows(PLAIN, BEFORE.overlay.docs) == [Live(3, "d")];
  }

  lemma CompactedIsRight()
    ensures IsCompacted(PLAIN, BEFORE, 1, BATCH_SIZE_BYTES, COMPACTED) && FitsCeiling(PLAIN, BEFORE, 1)
  {
    BeforeRows();
    var rows := SuffixRows(PLAIN, BEFORE, 1);
    var sizes := RowSizes(rows);
    assert sizes == [1, 1] && sizes[..1] == [1] && [1][..0] == [];
    assert Pack([1], BATCH_SIZE_BYTES) == Packed([0], 1);
    assert StartsFor(PLAIN, BEFORE, 1, BATCH_SIZE_BYTES) == [0];
    assert BEFORE.segs[..1] == [SEG0] && COMPACTED.segs[..1] == [SEG0] && COMPACTED.segs[1..] == [MERGED];
    assert IsOutput(MERGED, rows, 1, 0, 2);
  }

  // The planner asks for just that compaction.
  lemma BeforePlan()
    ensures PlanFor(PLAIN, BEFORE, 2, false) == Some(Plan(OverlayRatio, 1, BATCH_SIZE_BYTES, 1))
  {
    BeforeRows();
    TwoSegments(SEG0, SEG1);
    LeastFirst({1});
    assert PartitionPoint([SEG1], 1) == 1 + PartitionPoint([], 1) by {
      assert [SEG1][1..] == [];
    }
    assert BEFORE.segs[1..] == [SEG1];
    assert FirstDeletedSegment(BEFORE) == Some(1);
    var rows := SuffixRows(PLAIN, BEFORE, 1);
    assert rows[..1] == [Live(2, "e")] && rows[..1][..0] == [];
    assert RowBytes(rows[..1]) == RowBytes(rows[..1][..0]) + 1;
    assert RowBytes(rows) == 2;
  }

  lemma Disk1Opens()
    ensures Load(DISK1) == Ok(COMPACTED) && Synced(DISK1, COMPACTED)
  {
    OpenTwo(FILES1, 0, SEG0, 2, MERGED);
  }

  lemma Disk2Opens()
    ensures Load(DISK2) == Ok(RESULT) && Synced(DISK2, RESULT)
  {
    OpenTwo(FILES2, 0, SEG0, 2, MERGED);
    OpenNext(FILES2, [RefTo(0, SEG0), RefTo(2, MERGED)], [SEG0, MERGED], 3, DELTA);
    assert [RefTo(0, SEG0), RefTo(2, MERGED)] + [RefTo(3, DELTA)] == DISK2.manifest.value.segments;
    assert [SEG0, MERGED] + [DELTA] == RESULT.segs;
  }

  lemma CompactionPublishes()
    ensures PublishesCompaction(PLAIN, BEFORE, 1, BATCH_SIZE_BYTES, DISK0, DISK1)
  {
    FirstRows();
    CompactedIsRight();
    Disk0Opens();
    Disk1Opens();
    OntoIsPublished(BEFORE, 1, BATCH_SIZE_BYTES, DISK0, DISK1);
  }

  // The compaction takes effect but is not reopened.
  lemma CompactionStep()
    ensures Step(PLAIN, W0, Compacting(2, false, false), W1)
  {
    BeforePlan();
    CompactionPublishes();
    TwoBases(0, SEG0, 1, SEG1);
  }

  // ---------------------------------------------------------------- a flush by that handle

  lemma DeltaWritesD()
    ensures FitsOnto(BEFORE.overlay, COMPACTED.segs) && IsFlushedOnto(PLAIN, BEFORE, COMPACTED.segs, RESULT)
  {
    assert RESULT.segs[..2] == COMPACTED.segs;
    assert DeltaDocs(PLAIN, BEFORE.overlay.docs) == DELTA.docs;
  }

  // It passes the guard: three documents in two segments, as before the
  // compaction.
  lemma FlushStep()
    ensures Step(PLAIN, W1, Flushing(true), W2)
  {
    Disk1Opens();
    Disk2Opens();
    DeltaWritesD();
    TwoBases(0, SEG0, 2, MERGED);
    TwoSegments(SEG0, SEG1);
  }

  lemma CompactedRowsAre()
    ensures AllRows(COMPACTED.segs) == Rows(PLAIN, COMPACTED) == [Live(0, "x"), Live(1, "e"), Live(2, "d")]
    ensures Shown(COMPACTED) == AllRows(COMPACTED.segs) && SnapshotWF(PLAIN, COMPACTED)
  {
    MergedRows();
    KeepAll(AllRows(COMPACTED.segs), {});
    EmptyOverlayWF(PLAIN, Limit(COMPACTED.segs));
  }

  lemma MergedRows()
    ensures AllRows(COMPACTED.segs) == [Live(0, "x"), Live(1, "e"), Live(2, "d")] && SegsWF(COMPACTED.segs)
    ensures Rows(PLAIN, COMPACTED) == Keep(AllRows(COMPACTED.segs), {})
  {
    TwoPlain(COMPACTED, SEG0.docs, 1, MERGED.docs);
    assert PlainRows(SEG0.docs) == [Live(0, "x")] && PlainRows(MERGED.docs) == [Live(1, "e"), Live(2, "d")];
    assert OverlayRows(PLAIN, EmptyOverlay.docs) == [];
  }

  lemma ResultIsOnto()
    ensures Rows(PLAIN, RESULT) == Keep(AllRows(COMPACTED.segs), {1}) + OverlayRows(PLAIN, EDITED.docs)
  {
    EditStep();
    DeltaWritesD();
    FlushedRowsOnto(PLAIN, BEFORE, COMPACTED.segs, RESULT);
  }

  lemma ResultRows()
    ensures Rows(PLAIN, RESULT) == [Live(0, "x"), Live(2, "d"), Live(3, "d")]
  {
    ResultIsOnto();
    CompactedRowsAre();
    WithoutD(Live(0, "x"), Live(1, "e"), Live(2, "d"));
    assert OverlayRows(PLAIN, EDITED.docs) == [Live(3, "d")];
  }

  lemma StaleRun()
    ensures IsRun(PLAIN, [START, W0, W1, W2], [EDIT, Compacting(2, false, false), Flushing(true)])
  {
    EditStep();
    CompactionStep();
    FlushStep();
    ThreeStepRun(PLAIN, Lost, START, EDIT, W0, Compacting(2, false, false), W1, Flushing(true), W2);
  }

  // By the general conditions the flush hides a live document and lists
  // another one twice: the handle hides id 1, which on disk is now "e", and
  // leaves the "d" of the disk visible beside its own.
  lemma StaleFlushLosesDocument()
    ensures Build.OpensBuilt(PLAIN, LISTED, OPENS, START.st) && Load(START.st) == Ok(START.mem)
    ensures IsRun(PLAIN, [START, W0, W1, W2], [EDIT, Compacting(2, false, false), Flushing(true)])
    ensures Load(W1.st) == Ok(COMPACTED) && Load(W2.st) == Ok(RESULT)
    ensures !HidesOnlyReplaced(BEFORE, COMPACTED) && !KeepsLiveRows(PLAIN, BEFORE, COMPACTED, RESULT)
    ensures Path("e") in View(PLAIN, BEFORE) && Path("e") !in View(PLAIN, RESULT)
    ensures !DistinctPaths(Rows(PLAIN, RESULT))
  {
    FirstIsBuilt();
    StaleRun();
    Disk1Opens();
    Disk2Opens();
    HidesE();
    LosesE();
  }

  lemma HidesE()
    ensures !HidesOnlyReplaced(BEFORE, COMPACTED) && !KeepsLiveRows(PLAIN, BEFORE, COMPACTED, RESULT)
  {
    EditStep();
    DeltaWritesD();
    CompactedRowsAre();
    assert AllRows(COMPACTED.segs)[1] == Live(1, "e");
    StaleFlushKeepsRows(PLAIN, BEFORE, COMPACTED, RESULT);
  }

  lemma LosesE()
    ensures Path("e") in View(PLAIN, BEFORE) && Path("e") !in View(PLAIN, RESULT)
    ensures !DistinctPaths(Rows(PLAIN, RESULT))
  {
    BeforeRows();
    ResultRows();
    ThreeRows(Rows(PLAIN, BEFORE));
    ThreeRows(Rows(PLAIN, RESULT));
    ListsDTwice();
  }

  // Its visible base documents include a "d", and so does the overlay.
  lemma ListsDTwice()
    ensures !DistinctPaths(Rows(PLAIN, RESULT))
  {
    var visible := Keep(AllRows(COMPACTED.segs), BEFORE.deleted);
    EditStep();
    DeltaWritesD();
    CompactedRowsAre();
    KeepMember(AllRows(COMPACTED.segs), BEFORE.deleted);
    assert AllRows(COMPACTED.segs)[2] == Live(2, "d");
    assert Live(2, "d") in visible && BEFORE.overlay.docs[0].path in OverlayPaths(BEFORE);
    StaleFlushListsOnce(PLAIN, BEFORE, COMPACTED, RESULT);
  }

  // ---------------------------------------------------------------- a compaction by that handle

  // Since the handle lost its place another one has opened the index, added
  // "n", flushed and compacted; both segments start where they did.
  const ADDED := Overlay([OverlayDoc(3, Path("n"), [7], {})], map[], 4, 3)
  const WITH_N := Snapshot([SEG0, MERGED], {}, ADDED)
  const DELTA_N := PlainSeg(3, [PlainDoc(3, "n")])
  const FLUSHED_N := Snapshot([SEG0, MERGED, DELTA_N], {}, EmptyOverlay)
  const LARGER := PlainSeg(1, [PlainDoc(1, "e"), PlainDoc(2, "d"), PlainDoc(3, "n")])
  const NEWER := Snapshot([SEG0, LARGER], {}, EmptyOverlay)

  const FILES4: map<Name, File> := FILES1 + FilesOf(4, DELTA_N)
  const FILES5: map<Name, File> := FilesOf(0, SEG0) + FilesOf(5, LARGER)
  const FILES6: map<Name, File> := FilesOf(0, SEG0) + FilesOf(6, MERGED)

  const DISK4 := State(FILES4, Some(Manifest([RefTo(0, SEG0), RefTo(2, MERGED), RefTo(4, DELTA_N)], None, None, 1)))
  const DISK5 := State(FILES5, Some(Manifest([RefTo(0, SEG0), RefTo(5, LARGER)], None, None, 0)))
  const DISK6 := State(FILES6, Some(Manifest([RefTo(0, SEG0), RefTo(6, MERGED)], None, None, 0)))

  const H0 := World(COMPACTED, DISK1)
  const H1 := World(WITH_N, DISK1)
  const H2 := World(FLUSHED_N, DISK4)
  const H3 := World(NEWER, DISK5)

  const ADD := Committing({Path("n")}, {}, READS)

  lemma AddedOverlay()
    ensures IsNextOverlay(PLAIN, COMPACTED, [NewFile(Path("n"), [7])], {Path("n")} + {}, ADDED)
    ensures IdsWithPaths(COMPACTED.segs, {Path("n")} + {}) == {}
  {
    CompactedRowsAre();
    assert ADDED.docs == NextDocs(PLAIN, 3, EmptyOverlay, [NewFile(Path("n"), [7])], {Path("n")} + {});
  }

  lemma AddStep()
    ensures Step(PLAIN, H0, ADD, H1)
  {
    CompactedRowsAre();
    AddedOverlay();
    CommitOne(H0, Path("n"), ADDED, H1);
  }

  lemma Disk4Opens()
    ensures Load(DISK4) == Ok(FLUSHED_N) && Synced(DISK4, FLUSHED_N)
  {
    OpenTwo(FILES4, 0, SEG0, 2, MERGED);
    OpenNext(FILES4, [RefTo(0, SEG0), RefTo(2, MERGED)], [SEG0, MERGED], 4, DELTA_N);
    assert [RefTo(0, SEG0), RefTo(2, MERGED)] + [RefTo(4, DELTA_N)] == DISK4.manifest.value.segments;
    assert [SEG0, MERGED] + [DELTA_N] == FLUSHED_N.segs;
  }

  lemma FlushNStep()
    ensures Step(PLAIN, H1, Flushing(true), H2)
  {
    Disk1Opens();
    Disk4Opens();
    assert FLUSHED_N.segs[..2] == COMPACTED.segs;
    assert DeltaDocs(PLAIN, WITH_N.overlay.docs) == DELTA_N.docs;
    TwoBases(0, SEG0, 2, MERGED);
    TwoSegments(SEG0, MERGED);
  }

  lemma FlushedSegsWF()
    ensures DocCount(FLUSHED_N.segs) == 4 && SegsWF(FLUSHED_N.segs)
  {
    TwoSegments(SEG0, MERGED);
    RowsOfSegs([SEG0, MERGED], DELTA_N);
    assert [SEG0, MERGED] + [DELTA_N] == FLUSHED_N.segs;
  }

  lemma FlushedRowsAre()
    ensures SuffixRows(PLAIN, FLUSHED_N, 1) == [Live(1, "e"), Live(2, "d"), Live(3, "n")]
    ensures DocCount(FLUSHED_N.segs) == 4 && SegsWF(FLUSHED_N.segs)
  {
    FlushedSegsWF();
    PlainSegRows(1, MERGED.docs);
    PlainSegRows(3, DELTA_N.docs);
    TwoSegments(MERGED, DELTA_N);
    assert FLUSHED_N.segs[1..] == [MERGED, DELTA_N];
    KeepAll(AllRows([MERGED, DELTA_N]), {});
    assert OverlayRows(PLAIN, EmptyOverlay.docs) == [];
  }

  lemma FlushedPlan()
    ensures PlanFor(PLAIN, FLUSHED_N, 2, false) == Some(Plan(SegmentLimit, 1, BATCH_SIZE_BYTES, 1))
  {
    FlushedRowsAre();
    var rows := SuffixRows(PLAIN, FLUSHED_N, 1);
    assert rows[..2][..1][..0] == [] && rows[..2][..1] == [rows[0]] && rows[..2] == [rows[0], rows[1]];
    assert RowBytes(rows[..2][..1]) == 1;
    assert RowBytes(rows[..2]) == 2;
    assert RowBytes(rows) == 3;
  }

  lemma NewerIsRight()
    ensures IsCompacted(PLAIN, FLUSHED_N, 1, BATCH_SIZE_BYTES, NEWER) && FitsCeiling(PLAIN, FLUSHED_N, 1)
  {
    FlushedRowsAre();
    var rows := SuffixRows(PLAIN, FLUSHED_N, 1);
    var sizes := RowSizes(rows);
    assert sizes == [1, 1, 1] && sizes[..2] == [1, 1] && [1, 1][..1] == [1] && [1][..0] == [];
    assert Pack([1], BATCH_SIZE_BYTES) == Packed([0], 1);
    assert Pack([1, 1], BATCH_SIZE_BYTES) == Packed([0], 2);
    assert StartsFor(PLAIN, FLUSHED_N, 1, BATCH_SIZE_BYTES) == [0];
    assert FLUSHED_N.segs[..1] == [SEG0] && NEWER.segs[..1] == [SEG0] && NEWER.segs[1..] == [LARGER];
    assert IsOutput(LARGER, rows, 1, 0, 3);
  }

  lemma Disk5Opens()
    ensures Load(DISK5) == Ok(NEWER) && Synced(DISK5, NEWER)
  {
    OpenTwo(FILES5, 0, SEG0, 5, LARGER);
  }

  lemma Disk6Opens()
    ensures Load(DISK6) == Ok(COMPACTED) && Synced(DISK6, COMPACTED)
  {
    OpenTwo(FILES6, 0, SEG0, 6, MERGED);
  }

  lemma NewerPublishes()
    ensures PublishesCompaction(PLAIN, FLUSHED_N, 1, BATCH_SIZE_BYTES, DISK4, DISK5)
  {
    FlushedRowsAre();
    NewerIsRight();
    Disk4Opens();
    Disk5Opens();
    OntoIsPublished(FLUSHED_N, 1, BATCH_SIZE_BYTES, DISK4, DISK5);
  }

  lemma NewerStep()
    ensures Step(PLAIN, H2, Compacting(2, false, true), H3)
  {
    FlushedPlan();
    NewerPublishes();
    Disk4Opens();
    Disk5Opens();
    SyncedPassesGuard(DISK4, FLUSHED_N);
  }

  lemma OtherHandle()
    ensures IsRun(PLAIN, [H0, H1, H2, H3], [ADD, Flushing(true), Compacting(2, false, true)])
  {
    AddStep();
    FlushNStep();
    NewerStep();
    ThreeStepRun(PLAIN, Lost, H0, ADD, H1, Flushing(true), H2, Compacting(2, false, true), H3);
  }

  lemma NewerRows()
    ensures AllRows(NEWER.segs) == Rows(PLAIN, NEWER) == [Live(0, "x"), Live(1, "e"), Live(2, "d"), Live(3, "n")]
    ensures Going(NEWER, 1) == [Live(1, "e"), Live(2, "d"), Live(3, "n")]
  {
    TwoPlain(NEWER, SEG0.docs, 1, LARGER.docs);
    assert PlainRows(SEG0.docs) == [Live(0, "x")];
    assert PlainRows(LARGER.docs) == [Live(1, "e"), Live(2, "d"), Live(3, "n")];
    KeepAll(AllRows(NEWER.segs[1..]), {});
  }

  lemma NewerWF()
    ensures SnapshotWF(PLAIN, NEWER)
  {
    NewerRows();
    EmptyOverlayWF(PLAIN, Limit(NEWER.segs));
  }

  lemma CompactsOntoNewer()
    ensures IsCompactedOnto(PLAIN, BEFORE, NEWER.segs, 1, BATCH_SIZE_BYTES, COMPACTED)
    ensures FitsAfter(PLAIN, BEFORE, 1, Limit(NEWER.segs[..1]))
  {
    CompactedIsRight();
    assert NEWER.segs[..1] == [SEG0] == BEFORE.segs[..1];
  }

  lemma StaleCompactionPublishes()
    ensures PublishesCompaction(PLAIN, BEFORE, 1, BATCH_SIZE_BYTES, DISK5, DISK6)
  {
    NewerWF();
    NewerRows();
    CompactsOntoNewer();
    Disk5Opens();
    Disk6Opens();
    OntoIsPublished(BEFORE, 1, BATCH_SIZE_BYTES, DISK5, DISK6);
  }

  lemma StaleCompactionStep()
    ensures Step(PLAIN, World(BEFORE, DISK5), Compacting(2, false, true), World(COMPACTED, DISK6))
  {
    BeforePlan();
    StaleCompactionPublishes();
    Disk6Opens();
    StaleGuard();
  }

  lemma StaleGuard()
    ensures CompactGuard(DISK5.manifest.value, BEFORE, 1)
  {
    TwoBases(0, SEG0, 5, LARGER);
  }

  // The guard compares only where segments start, so it passes, and "n" is
  // gone: what the handle knows after the prefix is not what the disk has.
  lemma StaleCompactionLosesDocument()
    ensures IsRun(PLAIN, [START, W0, W1], [EDIT, Compacting(2, false, false)])
    ensures Load(W1.st) == Ok(H0.mem) && H0.st == W1.st
    ensures IsRun(PLAIN, [H0, H1, H2, H3], [ADD, Flushing(true), Compacting(2, false, true)])
    ensures Step(PLAIN, World(W1.mem, H3.st), Compacting(2, false, true), World(COMPACTED, DISK6))
    ensures ViewOf(SuffixRows(PLAIN, BEFORE, 1)) != ViewOf(Going(NEWER, 1))
    ensures !Means(Rows(PLAIN, COMPACTED), View(PLAIN, NEWER))
    ensures Path("n") in View(PLAIN, NEWER) && Path("n") !in View(PLAIN, COMPACTED)
  {
    EditStep();
    CompactionStep();
    TwoSteps(PLAIN, START, EDIT, W0, Compacting(2, false, false), W1);
    Disk1Opens();
    OtherHandle();
    StaleCompactionStep();
    SuffixesDiffer();
    LosesN();
  }

  lemma SuffixesDiffer()
    ensures ViewOf(SuffixRows(PLAIN, BEFORE, 1)) != ViewOf(Going(NEWER, 1))
    ensures !Means(Rows(PLAIN, COMPACTED), View(PLAIN, NEWER))
  {
    EditStep();
    BeforeRows();
    NewerWF();
    NewerRows();
    CompactsOntoNewer();
    TwoRows(SuffixRows(PLAIN, BEFORE, 1));
    ThreeRows(Going(NEWER, 1));
    assert Path("n") in ViewOf(Going(NEWER, 1)).Keys && Path("n") !in ViewOf(SuffixRows(PLAIN, BEFORE, 1)).Keys;
    StaleCompactionNothingHidden(PLAIN, BEFORE, NEWER, 1, BATCH_SIZE_BYTES, COMPACTED);
  }

  lemma LosesN()
    ensures Path("n") in View(PLAIN, NEWER) && Path("n") !in View(PLAIN, COMPACTED)
  {
    NewerWF();
    NewerRows();
    ViewOfMember(Rows(PLAIN, NEWER));
    assert Rows(PLAIN, NEWER)[3] in Rows(PLAIN, NEWER);
    CompactedRowsAre();
    ThreeRows(Rows(PLAIN, COMPACTED));
  }

  // ---------------------------------------------------------------- a build that lists a file twice

  const TWICE := PlainSeg(0, [PlainDoc(0, "p"), PlainDoc(1, "p")])
  const DUPLICATES := Snapshot([TWICE], {}, EmptyOverlay)
  const DOUBLED := State(FilesOf(0, TWICE), Some(Manifest([RefTo(0, TWICE)], None, None, 0)))

  // The caller's list names "p" twice; the published index opens and has two
  // live documents for it.
  lemma RepeatedBuild()
    ensures !Build.NoRepeat([Record("p"), Record("p")], OPENS)
    ensures Build.OpensBuilt(PLAIN, [Record("p"), Record("p")], OPENS, DOUBLED)
    ensures Load(DOUBLED) == Ok(DUPLICATES) && Rows(PLAIN, DUPLICATES) == [Live(0, "p"), Live(1, "p")]
    ensures !SnapshotWF(PLAIN, DUPLICATES)
  {
    DoubledOpens();
    DuplicateRows();
    ListedTwice();
    Build.BuiltIsWF(PLAIN, [Record("p"), Record("p")], OPENS, DUPLICATES);
  }

  lemma DoubledOpens()
    ensures Load(DOUBLED) == Ok(DUPLICATES) && Synced(DOUBLED, DUPLICATES)
  {
    OpenFirst(FilesOf(0, TWICE), 0, TWICE);
  }

  lemma DuplicateRows()
    ensures Rows(PLAIN, DUPLICATES) == [Live(0, "p"), Live(1, "p")] && SegsWF(DUPLICATES.segs)
  {
    PlainSegRows(0, TWICE.docs);
    TwoSegments(TWICE, TWICE);
    KeepAll(AllRows([TWICE]), {});
    assert OverlayRows(PLAIN, EmptyOverlay.docs) == [];
  }

  lemma ListedTwice()
    ensures !Build.NoRepeat([Record("p"), Record("p")], OPENS)
    ensures Build.BuiltRows(PLAIN, [Record("p"), Record("p")], OPENS, 0) == [Live(0, "p"), Live(1, "p")]
  {
    Build.RepeatedRecord(PLAIN, Record("p"), OPENS);
  }

  // ---------------------------------------------------------------- a flush after a second edit

  const A := Path("a")
  const B := Path("b")

  const EMPTY := Snapshot([], {}, EmptyOverlay)
  const FIRST_TWO := Overlay([OverlayDoc(0, A, [7], {}), OverlayDoc(1, B, [7], {})], map[], 2, 0)
  const SECOND_B := Overlay([OverlayDoc(0, A, [7], {}), OverlayDoc(2, B, [7], {})], map[], 3, 0)

  const BUILT := State(map[], Some(Manifest([], None, None, 0)))
  const GAP := Segment(0, [PlainDoc(0, "a"), PlainDoc(2, "b")], map[], Some(2))
  const BROKEN := State(FilesOf(0, GAP), Some(Manifest([RefTo(0, GAP)], None, None, 1)))

  const G0 := World(EMPTY, BUILT)
  const G1 := World(Snapshot([], {}, FIRST_TWO), BUILT)
  const G2 := World(Snapshot([], {}, SECOND_B), BUILT)
  const G3 := World(Snapshot([], {}, SECOND_B), BROKEN)

  const E1 := Committing({A, B}, {}, READS)
  const E2 := Committing({B}, {}, READS)

  lemma EmptyWF()
    ensures SnapshotWF(PLAIN, EMPTY)
    ensures Rows(PLAIN, EMPTY) == []
  {
    assert OverlayRows(PLAIN, EmptyOverlay.docs) == [];
    EmptyOverlayWF(PLAIN, 0);
  }

  lemma FirstReads()
    ensures Reads([NewFile(A, [7]), NewFile(B, [7])], {A, B}, READS) && Reads([NewFile(B, [7])], {B}, READS)
  {
    assert [NewFile(A, [7]), NewFile(B, [7])][0].path == A && [NewFile(A, [7]), NewFile(B, [7])][1].path == B;
    assert [NewFile(B, [7])][0].path == B;
  }

  lemma FirstOverlay()
    ensures IsNextOverlay(PLAIN, EMPTY, [NewFile(A, [7]), NewFile(B, [7])], {A, B} + {}, FIRST_TWO)
  {
    assert FIRST_TWO.docs == NextDocs(PLAIN, 0, EmptyOverlay, [NewFile(A, [7]), NewFile(B, [7])], {A, B} + {});
  }

  // With no base there is nothing to hide.
  lemma NextOfEmptyBase(s: Snapshot, touched: set<Path>, ov: Overlay)
    requires s.segs == [] && s.deleted == {}
    ensures NextSnapshot(s, touched, ov) == Snapshot([], {}, ov)
  {
  }

  lemma FirstCommit()
    ensures IsCommitted(PLAIN, EMPTY, {A, B}, {}, READS, G1.mem)
  {
    EmptyWF();
    FirstReads();
    FirstOverlay();
    NextOfEmptyBase(EMPTY, {A, B} + {}, FIRST_TWO);
    OverlayCommits(PLAIN, EMPTY, [NewFile(A, [7]), NewFile(B, [7])], {A, B}, {}, READS, FIRST_TWO);
  }

  lemma SecondOverlay()
    ensures IsNextOverlay(PLAIN, G1.mem, [NewFile(B, [7])], {B} + {}, SECOND_B)
  {
    var drop := {B} + {};
    assert FIRST_TWO.docs[..1] == [FIRST_TWO.docs[0]] && FIRST_TWO.docs[..1][..0] == [];
    assert Kept(FIRST_TWO.docs[..1], drop) == Kept(FIRST_TWO.docs[..1][..0], drop) + [FIRST_TWO.docs[0]];
    assert SECOND_B.docs == NextDocs(PLAIN, 0, FIRST_TWO, [NewFile(B, [7])], drop);
  }

  lemma SecondCommit()
    ensures IsCommitted(PLAIN, G1.mem, {B}, {}, READS, G2.mem)
  {
    EmptyWF();
    FirstCommit();
    FirstReads();
    SecondOverlay();
    NextOfEmptyBase(G1.mem, {B} + {}, SECOND_B);
    OverlayCommits(PLAIN, G1.mem, [NewFile(B, [7])], {B}, {}, READS, SECOND_B);
  }

  lemma BrokenDoesNotOpen()
    ensures BaseOf(BROKEN) == Err(CorruptIndex) && Load(BROKEN) == Err(CorruptIndex)
  {
    assert GAP.docs[1].id != GAP.base + 1;
    OpenOneMore(FilesOf(0, GAP), [], RefTo(0, GAP));
    assert [] + [RefTo(0, GAP)] == [RefTo(0, GAP)];
  }

  lemma GapFlush()
    ensures Step(PLAIN, G2, Flushing(true), G3)
  {
    BrokenDoesNotOpen();
    assert SECOND_B.docs[1].id != SECOND_B.docs[0].id + 1;
  }

  // Build an empty index, commit "a" and "b", commit "b" again, flush: the
  // index on disk no longer opens.
  lemma GapRun(read: Build.Reader)
    ensures Build.OpensBuilt(PLAIN, [], read, G0.st) && G0.mem == Load(G0.st).value
    ensures IsRun(PLAIN, [G0, G1, G2, G3], [E1, E2, Flushing(true)])
    ensures var after := SpecAfter(PLAIN, BUILT_SPEC, [G0, G1, G2, G3], [E1, E2, Flushing(true)]);
            after.Spec? && after.durable == None
    ensures Load(G3.st) == Err(CorruptIndex)
  {
    EmptyBuilt(read);
    GapSteps();
    GapFlush();
    BrokenDoesNotOpen();
    ThreeStepRun(PLAIN, BUILT_SPEC, G0, E1, G1, E2, G2, Flushing(true), G3);
    GapSpec();
  }

  lemma GapSteps()
    ensures Step(PLAIN, G0, E1, G1) && Step(PLAIN, G1, E2, G2)
  {
    FirstCommit();
    SecondCommit();
    CommitIsStep(PLAIN, G0, {A, B}, {}, READS, G1);
    CommitIsStep(PLAIN, G1, {B}, {}, READS, G2);
  }

  lemma GapSpec()
    ensures var committed := SpecNext(PLAIN, SpecNext(PLAIN, BUILT_SPEC, G0, E1), G1, E2);
            var after := SpecNext(PLAIN, committed, G2, Flushing(true));
            after.Spec? && after.durable == None
  {
    assert SECOND_B.docs[1].id != SECOND_B.docs[0].id + 1;
  }

  const BUILT_SPEC := Spec(map[], Some(map[]), true)

  lemma EmptyBuilt(read: Build.Reader)
    ensures Build.OpensBuilt(PLAIN, [], read, G0.st) && G0.mem == Load(G0.st).value
    ensures View(PLAIN, EMPTY) == map[]
  {
    EmptyWF();
  }
}
