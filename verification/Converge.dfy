// Repeated compaction: when does the planner stop asking for more?
module Converge {
  import opened Common
  import opened Snapshots
  import opened CompactPlan
  import opened Packing
  import opened Compact
  import opened Plain

  // One compaction that ran as planned and reopened. A freshly opened index
  // has no stale file ids, so `bloat` is false from the second one on.
  ghost predicate CompactStep(lx: Lexer, s: Snapshot, maxSegments: nat, bloat: bool, s2: Snapshot) {
    && PlanFor(lx, s, maxSegments, bloat).Some?
    && var plan := PlanFor(lx, s, maxSegments, bloat).value;
       plan.suffixStart <= |s.segs| && IsCompacted(lx, s, plan.suffixStart, Max(plan.batchSizeBytes, 1), s2)
  }

  // What a compaction leaves: no delete-set, no overlay.
  predicate Settled(s: Snapshot) { s.deleted == {} && s.overlay == EmptyOverlay }

  // The tail that a settled index over its segment limit will have rewritten.
  function Tail(lx: Lexer, s: Snapshot, maxSegments: nat): seq<nat>
    requires Max(maxSegments, 1) - 1 <= |s.segs|
  {
    RowSizes(SuffixRows(lx, s, Max(maxSegments, 1) - 1))
  }

  // A settled index is planned for only when it has too many segments; the
  // plan is then to merge everything past the limit into one segment.
  lemma SettledPlan(lx: Lexer, s: Snapshot, maxSegments: nat)
    requires Settled(s)
    ensures PlanFor(lx, s, maxSegments, false).Some? <==> |s.segs| > Max(maxSegments, 1)
    ensures |s.segs| > Max(maxSegments, 1) ==>
              PlanFor(lx, s, maxSegments, false) == Some(MakePlan(lx, s, SegmentLimit, Max(maxSegments, 1) - 1, 1))
  {
  }

  lemma {:induction false} RowBytesAreTotal(rows: seq<Row>)
    ensures RowBytes(rows) == TotalBytes(RowSizes(rows))
  {
    if |rows| != 0 {
      RowBytesAreTotal(rows[..|rows| - 1]);
      assert RowSizes(rows)[..|rows| - 1] == RowSizes(rows[..|rows| - 1]);
    }
  }

  // Whether some sizes merge into a single segment: always without empty
  // files, otherwise only when the batch has room for one byte each.
  predicate Merges(sizes: seq<nat>) {
    Zeros(sizes) == 0 || |sizes| <= 1 || TotalBytes(sizes) + Zeros(sizes) <= BATCH_SIZE_BYTES
  }

  lemma MergesExact(sizes: seq<nat>)
    ensures |Pack(sizes, BatchSize(TotalBytes(sizes), 1)).starts| <= 1 <==> Merges(sizes)
  {
    OneSegment(sizes, BatchSize(TotalBytes(sizes), 1));
    CostIsBytesPlusZeros(sizes);
    assert CeilDiv(TotalBytes(sizes), 1) == TotalBytes(sizes);
  }

  // A compaction of a settled index, exactly: it ends within the limit if and
  // only if its tail merges; and either way the tail has the same sizes after.
  lemma SettledStep(lx: Lexer, s: Snapshot, maxSegments: nat, s2: Snapshot)
    requires Settled(s) && CompactStep(lx, s, maxSegments, false, s2)
    ensures Settled(s2) && Max(maxSegments, 1) - 1 <= |s.segs| && Max(maxSegments, 1) - 1 <= |s2.segs|
    ensures Tail(lx, s2, maxSegments) == Tail(lx, s, maxSegments)
    ensures PlanFor(lx, s2, maxSegments, false).None? <==> Merges(Tail(lx, s, maxSegments))
  {
    SettledPlan(lx, s, maxSegments);
    SettledPlan(lx, s2, maxSegments);
    var start := Max(maxSegments, 1) - 1;
    var rows := SuffixRows(lx, s, start);
    var batch := PlanFor(lx, s, maxSegments, false).value.batchSizeBytes;
    RowBytesAreTotal(rows);
    assert batch == BatchSize(TotalBytes(RowSizes(rows)), 1) >= 1;
    MergesExact(RowSizes(rows));
    SameTail(lx, s, start, batch, s2);
  }

  lemma SameTail(lx: Lexer, s: Snapshot, start: nat, batch: nat, s2: Snapshot)
    requires IsCompacted(lx, s, start, batch, s2)
    ensures RowSizes(SuffixRows(lx, s2, start)) == RowSizes(SuffixRows(lx, s, start))
    ensures |s2.segs| == start + |Pack(RowSizes(SuffixRows(lx, s, start)), batch).starts|
  {
    var rows, limit := SuffixRows(lx, s, start), Limit(s.segs[..start]);
    AllOutputRows(s2.segs[start..], rows, limit, batch);
    KeepAll(AllRows(s2.segs[start..]), {});
    assert OverlayRows(lx, EmptyOverlay.docs) == [];
    assert SuffixRows(lx, s2, start) == RenumberRows(rows, limit);
  }

  // ---------------------------------------------------------------- convergence

  // With no edits and no empty files among the live documents, the planner is
  // satisfied after at most two compactions.
  lemma ConvergesInTwo(lx: Lexer, s0: Snapshot, s1: Snapshot, s2: Snapshot, maxSegments: nat, bloat: bool)
    requires SnapshotWF(lx, s0)
    requires forall r :: r in Rows(lx, s0) ==> r.entry.size > 0
    requires CompactStep(lx, s0, maxSegments, bloat, s1)
    requires CompactStep(lx, s1, maxSegments, false, s2)
    ensures PlanFor(lx, s2, maxSegments, false).None?
  {
    var start := PlanFor(lx, s0, maxSegments, bloat).value.suffixStart;
    var plan := PlanFor(lx, s0, maxSegments, bloat).value;
    assert ForcedPlan(lx, s0, maxSegments, bloat) == Some(plan);
    PlanIsSafe(lx, s0, maxSegments, bloat);
    CompactionRenumbers(lx, s0, start, Max(plan.batchSizeBytes, 1), s1);
    assert forall r :: r in Rows(lx, s1) ==> r.entry.size > 0;
    SettledStep(lx, s1, maxSegments, s2);
    NoZerosInTail(lx, s1, maxSegments);
  }

  lemma {:induction false} NoZeros(rows: seq<Row>)
    requires forall r :: r in rows ==> r.entry.size > 0
    ensures Zeros(RowSizes(rows)) == 0
  {
    if |rows| != 0 {
      var init := rows[..|rows| - 1];
      assert rows == init + [rows[|rows| - 1]];
      assert rows[|rows| - 1] in rows;
      NoZeros(init);
      assert RowSizes(rows)[..|rows| - 1] == RowSizes(init);
    }
  }

  lemma NoZerosInTail(lx: Lexer, s: Snapshot, maxSegments: nat)
    requires Settled(s) && Max(maxSegments, 1) - 1 <= |s.segs|
    requires forall r :: r in Rows(lx, s) ==> r.entry.size > 0
    ensures Zeros(Tail(lx, s, maxSegments)) == 0
  {
    var start := Max(maxSegments, 1) - 1;
    KeepAll(AllRows(s.segs[..start]), {});
    assert s.segs == s.segs[..start] + s.segs[start..];
    JoinRows(lx, s, s.segs[..start], s.segs[start..]);
    assert forall r :: r in SuffixRows(lx, s, start) ==> r in Rows(lx, s);
    NoZeros(SuffixRows(lx, s, start));
  }

  // The number of segments one compaction writes, without empty files.
  lemma OutputsBound(lx: Lexer, s: Snapshot, maxSegments: nat, bloat: bool, s2: Snapshot)
    requires CompactStep(lx, s, maxSegments, bloat, s2)
    requires var plan := PlanFor(lx, s, maxSegments, bloat).value;
             forall r :: r in SuffixRows(lx, s, plan.suffixStart) ==> r.entry.size > 0
    ensures var plan := PlanFor(lx, s, maxSegments, bloat).value;
            |s2.segs| <= plan.suffixStart + 2 * plan.targetSegments - 1
  {
    var plan := PlanFor(lx, s, maxSegments, bloat).value;
    var rows := SuffixRows(lx, s, plan.suffixStart);
    NoZeros(rows);
    RowBytesAreTotal(rows);
    BatchCovers(TotalBytes(RowSizes(rows)), plan.targetSegments);
    AtMostTwiceTarget(RowSizes(rows), plan.batchSizeBytes, plan.targetSegments);
  }

  // Rounding up, `target` batches cover all the bytes.
  lemma BatchCovers(totalBytes: nat, target: nat)
    requires target > 0
    ensures totalBytes <= target * BatchSize(totalBytes, target) && BatchSize(totalBytes, target) >= 1
  {
    if totalBytes > 0 {
      var q := CeilDiv(totalBytes, target);
      assert totalBytes <= target * q by {
        var n := totalBytes + (target - 1);
        assert n == target * (n / target) + n % target;
      }
      MulMonotone(q, BatchSize(totalBytes, target), target);
    }
  }

  // A run of compactions with no edits in between.
  ghost predicate CompactRun(lx: Lexer, run: seq<Snapshot>, maxSegments: nat) {
    && |run| > 0 && Settled(run[0])
    && forall i :: 0 <= i < |run| - 1 ==> CompactStep(lx, run[i], maxSegments, false, run[i + 1])
  }

  // From a settled index whose tail merges, no run makes a second compaction.
  lemma MergesAtOnce(lx: Lexer, run: seq<Snapshot>, maxSegments: nat)
    requires CompactRun(lx, run, maxSegments) && |run| >= 2
    requires Max(maxSegments, 1) - 1 <= |run[0].segs| && Merges(Tail(lx, run[0], maxSegments))
    ensures |run| == 2 && PlanFor(lx, run[1], maxSegments, false).None?
  {
    assert CompactStep(lx, run[0], maxSegments, false, run[1]);
    SettledStep(lx, run[0], maxSegments, run[1]);
    assert |run| > 2 ==> CompactStep(lx, run[1], maxSegments, false, run[2]);
  }

  // If the tail does not merge, the planner asks for another compaction after
  // every one, for ever.
  lemma {:induction false} NeverMerges(lx: Lexer, run: seq<Snapshot>, maxSegments: nat)
    requires CompactRun(lx, run, maxSegments) && |run[0].segs| > Max(maxSegments, 1)
    requires !Merges(Tail(lx, run[0], maxSegments))
    ensures PlanFor(lx, run[|run| - 1], maxSegments, false).Some?
  {
    SettledPlan(lx, run[0], maxSegments);
    if |run| > 1 {
      var rest := run[1..];
      assert CompactStep(lx, run[0], maxSegments, false, run[1]);
      SettledStep(lx, run[0], maxSegments, run[1]);
      SettledPlan(lx, run[1], maxSegments);
      forall i | 0 <= i < |rest| - 1 ensures CompactStep(lx, rest[i], maxSegments, false, rest[i + 1]) {
        assert CompactStep(lx, run[i + 1], maxSegments, false, run[i + 2]);
      }
      NeverMerges(lx, rest, maxSegments);
    }
  }

  // ---------------------------------------------------------------- examples

  // Rows `lo..hi` make one output when they are numbered already.
  lemma PlainOutput(rows: seq<Row>, limit: nat, lo: nat, hi: nat, docs: seq<Doc>)
    requires lo < hi <= |rows| && |docs| == hi - lo
    requires forall i :: 0 <= i < |docs| ==> docs[i] == DocOf(rows[lo + i]).(id := limit + lo + i)
    requires forall i :: 0 <= i < |rows| ==> rows[i].entry.grams == {}
    ensures IsOutput(PlainSeg(limit + lo, docs), rows, limit, lo, hi)
  {
  }

  lemma SuffixOfSettled(lx: Lexer, s: Snapshot, start: nat)
    requires Settled(s) && start <= |s.segs|
    ensures SuffixRows(lx, s, start) == AllRows(s.segs[start..])
  {
    KeepAll(AllRows(s.segs[start..]), {});
    assert OverlayRows(lx, EmptyOverlay.docs) == [];
  }

  lemma SettledWF(lx: Lexer, s: Snapshot)
    requires Settled(s) && SegsWF(s.segs) && DistinctPaths(AllRows(s.segs))
    ensures SnapshotWF(lx, s)
  {
    SuffixOfSettled(lx, s, 0);
    assert s.segs[0..] == s.segs;
    EmptyOverlayWF(lx, Limit(s.segs));
  }

  // It does happen that the planner is never satisfied: an empty file next to
  // one that fills a batch by itself, with a limit of one segment. Compacting
  // leaves the very same index.
  const BIG := Doc(0, Path("a"), 0, BATCH_SIZE_BYTES)
  const NONE := Doc(1, Path("b"), 0, 0)
  const STUCK := Snapshot([PlainSeg(0, [BIG]), PlainSeg(1, [NONE])], {}, EmptyOverlay)

  lemma StuckIndex(lx: Lexer)
    ensures SnapshotWF(lx, STUCK) && Settled(STUCK) && |STUCK.segs| == 2
    ensures Tail(lx, STUCK, 1) == [BATCH_SIZE_BYTES, 0] && !Merges(Tail(lx, STUCK, 1))
    ensures CompactStep(lx, STUCK, 1, false, STUCK)
  {
    StuckTail(lx);
    StuckStep(lx);
    StuckWF(lx);
  }

  lemma StuckTail(lx: Lexer)
    ensures Tail(lx, STUCK, 1) == [BATCH_SIZE_BYTES, 0] && !Merges(Tail(lx, STUCK, 1))
  {
    StuckRows(lx);
    TailTooBig();
  }

  lemma StuckWF(lx: Lexer)
    ensures SnapshotWF(lx, STUCK)
  {
    StuckRows(lx);
    SettledWF(lx, STUCK);
  }

  lemma StuckStep(lx: Lexer)
    ensures CompactStep(lx, STUCK, 1, false, STUCK)
  {
    StuckRows(lx);
    TailTooBig();
    SettledPlan(lx, STUCK, 1);
    RowBytesAreTotal(SuffixRows(lx, STUCK, 0));
    StuckCompacts(lx);
  }

  lemma StuckRows(lx: Lexer)
    ensures AllRows(STUCK.segs) == SuffixRows(lx, STUCK, 0) == [PlainRow(BIG), PlainRow(NONE)]
    ensures RowSizes(SuffixRows(lx, STUCK, 0)) == [BATCH_SIZE_BYTES, 0]
    ensures SumSizes([BIG]) == BATCH_SIZE_BYTES && SumSizes([NONE]) == 0
  {
    PlainSegRows(0, [BIG]);
    PlainSegRows(1, [NONE]);
    TwoSegments(PlainSeg(0, [BIG]), PlainSeg(1, [NONE]));
    SuffixOfSettled(lx, STUCK, 0);
    assert STUCK.segs[0..] == STUCK.segs;
    assert [BIG][..0] == [] && [NONE][..0] == [];
  }

  lemma StuckCompacts(lx: Lexer)
    ensures IsCompacted(lx, STUCK, 0, BATCH_SIZE_BYTES, STUCK)
  {
    var rows := SuffixRows(lx, STUCK, 0);
    StuckRows(lx);
    PlainOutput(rows, 0, 0, 1, [BIG]);
    PlainOutput(rows, 0, 1, 2, [NONE]);
    PackTwo(BATCH_SIZE_BYTES, 0, BATCH_SIZE_BYTES);
    assert STUCK.segs[..0] == [] && STUCK.segs[0..] == STUCK.segs;
  }

  lemma PackTwo(a: nat, b: nat, batch: nat)
    ensures Pack([a], batch) == Packed([0], Cost(a))
    ensures Pack([a, b], batch)
         == if Cost(a) + Cost(b) > batch then Packed([0, 1], Cost(b)) else Packed([0], Cost(a) + Cost(b))
  {
    assert [a, b][..1] == [a] && [a][..0] == [];
    assert Pack([a], batch) == PackNext(Pack([], batch), 0, a, batch);
  }

  lemma TailTooBig()
    ensures TotalBytes([BATCH_SIZE_BYTES, 0]) == BATCH_SIZE_BYTES && !Merges([BATCH_SIZE_BYTES, 0])
  {
    var sizes: seq<nat> := [BATCH_SIZE_BYTES, 0];
    assert sizes[..1] == [BATCH_SIZE_BYTES] && [BATCH_SIZE_BYTES][..0] == [];
    assert TotalBytes([BATCH_SIZE_BYTES]) == TotalBytes([]) + BATCH_SIZE_BYTES;
    assert Zeros([BATCH_SIZE_BYTES]) == Zeros([]);
  }

  // One compaction is not always enough, empty files or not: with a limit of
  // two segments, three files of 200 MB do not fit two batches of 300 MB, and
  // the next compaction puts the last two together.
  const HALF: nat := 200_000_000
  const GONE := Doc(0, Path("a"), 0, 1)

  function Large(id: nat, name: string): Doc { Doc(id, Path(name), 0, HALF) }

  const THREE := Snapshot(
    [PlainSeg(0, [GONE, Large(1, "a")]), PlainSeg(2, [Large(2, "b")]), PlainSeg(3, [Large(3, "c")])],
    {0},
    EmptyOverlay)
  const PACKED := Snapshot(
    [PlainSeg(0, [Large(0, "a")]), PlainSeg(1, [Large(1, "b")]), PlainSeg(2, [Large(2, "c")])],
    {},
    EmptyOverlay)
  const JOINED := Snapshot(
    [PlainSeg(0, [Large(0, "a")]), PlainSeg(1, [Large(1, "b"), Large(2, "c")])],
    {},
    EmptyOverlay)

  lemma TwoMayBeNeeded(lx: Lexer)
    ensures SnapshotWF(lx, THREE) && forall r :: r in Rows(lx, THREE) ==> r.entry.size > 0
    ensures CompactStep(lx, THREE, 2, false, PACKED) && PlanFor(lx, PACKED, 2, false).Some?
    ensures CompactStep(lx, PACKED, 2, false, JOINED) && PlanFor(lx, JOINED, 2, false).None?
  {
    ThreeLive(lx);
    ThreeWF(lx);
    ThreeStep(lx);
    SettledPlan(lx, PACKED, 2);
    SettledPlan(lx, JOINED, 2);
    PackedCompacts(lx);
  }

  lemma ThreeStep(lx: Lexer)
    ensures CompactStep(lx, THREE, 2, false, PACKED)
  {
    ThreePlan(lx);
    ThreeCompacts(lx);
  }

  lemma Sizes(a: nat, b: nat, c: nat)
    ensures TotalBytes([a, b]) == a + b && TotalBytes([a, b, c]) == a + b + c
  {
    assert [a, b, c][..2] == [a, b] && [a, b][..1] == [a] && [a][..0] == [];
    assert TotalBytes([a]) == TotalBytes([]) + a;
  }

  lemma ThreeLive(lx: Lexer)
    ensures AllRows(THREE.segs)
         == [PlainRow(GONE), PlainRow(Large(1, "a")), PlainRow(Large(2, "b")), PlainRow(Large(3, "c"))]
    ensures Rows(lx, THREE) == SuffixRows(lx, THREE, 0)
         == [PlainRow(Large(1, "a")), PlainRow(Large(2, "b")), PlainRow(Large(3, "c"))]
  {
    var a, b, c := PlainSeg(0, [GONE, Large(1, "a")]), PlainSeg(2, [Large(2, "b")]), PlainSeg(3, [Large(3, "c")]);
    PlainSegRows(0, [GONE, Large(1, "a")]);
    PlainSegRows(2, [Large(2, "b")]);
    PlainSegRows(3, [Large(3, "c")]);
    TwoSegments(a, b);
    RowsOfSegs([a, b], c);
    assert [a, b] + [c] == THREE.segs && THREE.segs[0..] == THREE.segs;
    var live := [PlainRow(Large(1, "a")), PlainRow(Large(2, "b")), PlainRow(Large(3, "c"))];
    assert AllRows(THREE.segs) == [PlainRow(GONE)] + live;
    KeepAppend([PlainRow(GONE)], live, {0});
    KeepAll(live, {0});
    assert [PlainRow(GONE)][..0] == [];
    assert Keep([PlainRow(GONE)], {0}) == Keep([], {0});
    assert OverlayRows(lx, EmptyOverlay.docs) == [];
  }

  lemma ThreeWF(lx: Lexer)
    ensures SnapshotWF(lx, THREE)
  {
    ThreeLive(lx);
    EmptyOverlayWF(lx, Limit(THREE.segs));
    assert THREE.segs[0].base <= 0 < THREE.segs[0].End();
    assert BaseId(THREE.segs, 0);
  }

  lemma ThreePlan(lx: Lexer)
    ensures PlanFor(lx, THREE, 2, false) == Some(Plan(SegmentLimit, 0, 300_000_000, 2))
  {
    ThreeLive(lx);
    LeastFirst({0});
    assert PartitionPoint(THREE.segs, 0) == 1 by {
      assert THREE.segs[1..][0].base > 0;
    }
    var rows := SuffixRows(lx, THREE, 0);
    assert RowSizes(rows) == [HALF, HALF, HALF];
    RowBytesAreTotal(rows);
    Sizes(HALF, HALF, HALF);
  }

  lemma ThreeCompacts(lx: Lexer)
    ensures IsCompacted(lx, THREE, 0, 300_000_000, PACKED)
  {
    var rows := SuffixRows(lx, THREE, 0);
    ThreeLive(lx);
    PlainOutput(rows, 0, 0, 1, [Large(0, "a")]);
    PlainOutput(rows, 0, 1, 2, [Large(1, "b")]);
    PlainOutput(rows, 0, 2, 3, [Large(2, "c")]);
    PackTwo(HALF, HALF, 300_000_000);
    assert RowSizes(rows) == [HALF, HALF, HALF] && [HALF, HALF, HALF][..2] == [HALF, HALF];
    assert Pack(RowSizes(rows), 300_000_000).starts == [0, 1, 2];
    assert THREE.segs[..0] == [] && PACKED.segs[..0] == [] && PACKED.segs[0..] == PACKED.segs;
  }

  lemma PackedTail(lx: Lexer)
    ensures SuffixRows(lx, PACKED, 1) == [PlainRow(Large(1, "b")), PlainRow(Large(2, "c"))]
    ensures RowSizes(SuffixRows(lx, PACKED, 1)) == [HALF, HALF]
  {
    var b, c := PlainSeg(1, [Large(1, "b")]), PlainSeg(2, [Large(2, "c")]);
    PlainSegRows(1, [Large(1, "b")]);
    PlainSegRows(2, [Large(2, "c")]);
    TwoSegments(b, c);
    SuffixOfSettled(lx, PACKED, 1);
    assert PACKED.segs[1..] == [b, c];
  }

  lemma PackedPlan(lx: Lexer)
    ensures PlanFor(lx, PACKED, 2, false) == Some(Plan(SegmentLimit, 1, 400_000_000, 1))
  {
    PackedTail(lx);
    SettledPlan(lx, PACKED, 2);
    RowBytesAreTotal(SuffixRows(lx, PACKED, 1));
    Sizes(HALF, HALF, HALF);
  }

  lemma PackedJoins(lx: Lexer)
    ensures IsCompacted(lx, PACKED, 1, 400_000_000, JOINED)
  {
    var rows := SuffixRows(lx, PACKED, 1);
    PackedTail(lx);
    PackTwo(HALF, HALF, 400_000_000);
    PlainOutput(rows, 1, 0, 2, [Large(1, "b"), Large(2, "c")]);
    assert JOINED.segs[..1] == PACKED.segs[..1] && JOINED.segs[1..] == [PlainSeg(1, [Large(1, "b"), Large(2, "c")])];
  }

  lemma PackedCompacts(lx: Lexer)
    ensures CompactStep(lx, PACKED, 2, false, JOINED)
  {
    PackedPlan(lx);
    PackedJoins(lx);
  }
}
