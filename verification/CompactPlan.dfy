// Deciding whether, where and how much to compact (compact_plan.rs).
module CompactPlan {
  import opened Common
  import opened Snapshots

  const BATCH_SIZE_BYTES: nat := 268_435_456

  datatype Reason = OverlayRatio | SegmentLimit | FileIdBloat | ExplicitRequest

  datatype Plan = Plan(reason: Reason, suffixStart: nat, batchSizeBytes: nat, targetSegments: nat)

  // ---------------------------------------------------------------- what is rewritten

  // The live documents from segment `start` on, the overlay included.
  function SuffixRows(lx: Lexer, s: Snapshot, start: nat): seq<Row>
    requires start <= |s.segs|
  {
    Keep(AllRows(s.segs[start..]), s.deleted) + OverlayRows(lx, s.overlay.docs)
  }

  function RowBytes(rows: seq<Row>): nat {
    if |rows| == 0 then 0 else RowBytes(rows[..|rows| - 1]) + rows[|rows| - 1].entry.size
  }

  lemma {:induction false} RowBytesAppend(a: seq<Row>, b: seq<Row>)
    ensures RowBytes(a + b) == RowBytes(a) + RowBytes(b)
    decreases |b|
  {
    if |b| == 0 {
      assert a + b == a;
    } else {
      RowBytesAppend(a, b[..|b| - 1]);
      assert (a + b)[..|a + b| - 1] == a + b[..|b| - 1];
    }
  }

  // ---------------------------------------------------------------- byte counts

  // Bytes of the documents whose id is in `ids`.
  function BytesIn(docs: seq<Doc>, ids: set<nat>): nat {
    if |docs| == 0 then 0
    else BytesIn(docs[..|docs| - 1], ids) + if docs[|docs| - 1].id in ids then docs[|docs| - 1].size else 0
  }

  lemma {:induction false} BytesInAgree(docs: seq<Doc>, a: set<nat>, b: set<nat>)
    requires forall i :: 0 <= i < |docs| ==> (docs[i].id in a <==> docs[i].id in b)
    ensures BytesIn(docs, a) == BytesIn(docs, b)
  {
    if |docs| != 0 {
      BytesInAgree(docs[..|docs| - 1], a, b);
    }
  }

  lemma {:induction false} BytesInNone(docs: seq<Doc>)
    ensures BytesIn(docs, {}) == 0
  {
    if |docs| != 0 {
      BytesInNone(docs[..|docs| - 1]);
    }
  }

  lemma {:induction false} BytesInOneMore(docs: seq<Doc>, base: nat, ids: set<nat>, x: nat)
    requires forall i :: 0 <= i < |docs| ==> docs[i].id == base + i
    requires base <= x < base + |docs| && x !in ids
    ensures BytesIn(docs, ids + {x}) == BytesIn(docs, ids) + docs[x - base].size
  {
    var n := |docs| - 1;
    if x == base + n {
      BytesInAgree(docs[..n], ids, ids + {x});
    } else {
      BytesInOneMore(docs[..n], base, ids, x);
    }
  }

  // Visible and hidden bytes add up to the total.
  lemma {:induction false} KeptBytes(seg: Segment, n: nat, hidden: set<nat>)
    requires n <= |seg.docs|
    ensures RowBytes(Keep(SegRows(seg)[..n], hidden)) + BytesIn(seg.docs[..n], hidden) == SumSizes(seg.docs[..n])
  {
    if n != 0 {
      var rows, docs := SegRows(seg)[..n], seg.docs[..n];
      var last := rows[n - 1];
      KeptBytes(seg, n - 1, hidden);
      assert rows[..n - 1] == SegRows(seg)[..n - 1] && docs[..n - 1] == seg.docs[..n - 1];
      RowBytesAppend(Keep(rows[..n - 1], hidden), if last.id in hidden then [] else [last]);
      assert RowBytes([last]) == RowBytes([]) + last.entry.size;
    }
  }

  // One segment (compact_plan.rs:32-64). With the recorded total at hand only
  // the hidden documents are looked up; otherwise every document is.
  method LiveSegmentBytes(seg: Segment, deleted: set<nat>) returns (r: nat)
    requires SegWF(seg)
    ensures r == RowBytes(Keep(SegRows(seg), deleted))
  {
    KeptBytes(seg, |seg.docs|, deleted);
    assert SegRows(seg)[..|seg.docs|] == SegRows(seg) && seg.docs[..|seg.docs|] == seg.docs;
    if seg.docBytes.Some? {
      var deletedBytes := HiddenBytes(seg, deleted);
      r := SatSub(seg.docBytes.value, deletedBytes);
    } else {
      r := VisibleBytes(seg.docs, deleted);
    }
  }

  method VisibleBytes(docs: seq<Doc>, deleted: set<nat>) returns (r: nat)
    ensures r + BytesIn(docs, deleted) == SumSizes(docs)
  {
    r := 0;
    for i := 0 to |docs|
      invariant r + BytesIn(docs[..i], deleted) == SumSizes(docs[..i])
    {
      assert docs[..i + 1][..i] == docs[..i];
      if docs[i].id !in deleted {
        r := r + docs[i].size;
      }
    }
    assert docs[..|docs|] == docs;
  }

  // Scan the delete-set in ascending order, stopping at the segment's end.
  method HiddenBytes(seg: Segment, deleted: set<nat>) returns (deletedBytes: nat)
    requires SegWF(seg)
    ensures deletedBytes == BytesIn(seg.docs, deleted)
  {
    deletedBytes := 0;
    var ids := SortedIds(deleted);
    var j := 0;
    BytesInNone(seg.docs);
    assert Elements(ids[..0]) == {};
    while j < |ids| && ids[j] < seg.End()
      invariant 0 <= j <= |ids|
      invariant deletedBytes == BytesIn(seg.docs, Elements(ids[..j]))
    {
      assert Elements(ids[..j + 1]) == Elements(ids[..j]) + {ids[j]};
      assert ids[j] !in Elements(ids[..j]);
      if ids[j] >= seg.base {
        BytesInOneMore(seg.docs, seg.base, Elements(ids[..j]), ids[j]);
        deletedBytes := deletedBytes + seg.docs[ids[j] - seg.base].size;
      } else {
        BytesInAgree(seg.docs, Elements(ids[..j]), Elements(ids[..j + 1]));
      }
      j := j + 1;
    }
    forall i | 0 <= i < |seg.docs| ensures seg.docs[i].id in Elements(ids[..j]) <==> seg.docs[i].id in deleted {
      ScannedAll(ids, j, seg.End(), seg.docs[i].id);
    }
    BytesInAgree(seg.docs, Elements(ids[..j]), deleted);
  }

  // Stopping at the first id past the end misses none below it.
  lemma ScannedAll(ids: seq<nat>, j: nat, end: nat, x: nat)
    requires Ascending(ids) && j <= |ids| && (j < |ids| ==> ids[j] >= end) && x < end
    ensures x in Elements(ids[..j]) <==> x in ids
  {
    if x in ids {
      var k :| 0 <= k < |ids| && ids[k] == x;
      assert k < j;
      assert ids[..j][k] == x;
    }
  }

  function LiveBytes(s: Snapshot, start: nat, k: nat): nat
    requires start <= k <= |s.segs|
  {
    RowBytes(Keep(AllRows(s.segs[start..k]), s.deleted))
  }

  method BaseBytesFrom(s: Snapshot, start: nat) returns (baseBytes: nat)
    requires start <= |s.segs| && forall k :: start <= k < |s.segs| ==> SegWF(s.segs[k])
    ensures baseBytes == LiveBytes(s, start, |s.segs|)
  {
    baseBytes := 0;
    assert s.segs[start..start] == [];
    for k := start to |s.segs|
      invariant baseBytes == LiveBytes(s, start, k)
    {
      var b := LiveSegmentBytes(s.segs[k], s.deleted);
      OneMoreSegment(s, start, k);
      baseBytes := baseBytes + b;
    }
  }

  lemma OneMoreSegment(s: Snapshot, start: nat, k: nat)
    requires start <= k < |s.segs|
    ensures LiveBytes(s, start, k + 1) == LiveBytes(s, start, k) + RowBytes(Keep(SegRows(s.segs[k]), s.deleted))
  {
    assert s.segs[start..k + 1][..k - start] == s.segs[start..k];
    KeepAppend(AllRows(s.segs[start..k]), SegRows(s.segs[k]), s.deleted);
    RowBytesAppend(Keep(AllRows(s.segs[start..k]), s.deleted), Keep(SegRows(s.segs[k]), s.deleted));
  }

  method OverlayBytes(ghost lx: Lexer, docs: seq<OverlayDoc>) returns (overlayBytes: nat)
    ensures overlayBytes == RowBytes(OverlayRows(lx, docs))
  {
    overlayBytes := 0;
    ghost var rows := OverlayRows(lx, docs);
    for i := 0 to |docs|
      invariant overlayBytes == RowBytes(rows[..i])
    {
      assert rows[..i + 1][..i] == rows[..i];
      overlayBytes := overlayBytes + |docs[i].content|;
    }
    assert rows[..|docs|] == rows;
  }

  // compact_plan.rs:24-73
  method LiveSnapshotBytesFrom(ghost lx: Lexer, s: Snapshot, start: nat) returns (r: nat)
    requires SegsWF(s.segs) && start <= |s.segs|
    ensures r == RowBytes(SuffixRows(lx, s, start))
  {
    var baseBytes := BaseBytesFrom(s, start);
    assert s.segs[start..|s.segs|] == s.segs[start..];
    var overlayBytes := OverlayBytes(lx, s.overlay.docs);
    RowBytesAppend(Keep(AllRows(s.segs[start..]), s.deleted), OverlayRows(lx, s.overlay.docs));
    r := baseBytes + overlayBytes;
  }

  // ---------------------------------------------------------------- where to start

  // How many leading segments start at or before `id`.
  function PartitionPoint(segs: seq<Segment>, id: nat): (n: nat)
    ensures n <= |segs|
    ensures forall k :: 0 <= k < n ==> segs[k].base <= id
    ensures n < |segs| ==> segs[n].base > id
  {
    if |segs| == 0 || segs[0].base > id then 0 else 1 + PartitionPoint(segs[1..], id)
  }

  function FirstDeletedSegment(s: Snapshot): Option<nat> {
    if s.deleted == {} then None
    else
      var n := PartitionPoint(s.segs, FirstOf(SortedIds(s.deleted)));
      Some(if n == 0 then 0 else n - 1)
  }

  function FirstOf(ids: seq<nat>): nat { if |ids| == 0 then 0 else ids[0] }

  // No hidden id lies before segment `start`.
  ghost predicate NoneHiddenBefore(s: Snapshot, start: nat) {
    start <= |s.segs| && forall k, x :: 0 <= k < start && s.segs[k].base <= x < s.segs[k].End() ==> x !in s.deleted
  }

  lemma LeastFirst(ids: set<nat>)
    requires ids != {}
    ensures |SortedIds(ids)| > 0 && FirstOf(SortedIds(ids)) in ids
    ensures forall x :: x in ids ==> FirstOf(SortedIds(ids)) <= x
  {
    var sorted := SortedIds(ids);
    var y :| y in ids;
    assert y in sorted;
    assert sorted[0] in sorted;
  }

  // The segment found is the one that holds the id.
  lemma PartitionPointHolds(segs: seq<Segment>, l: nat, id: nat)
    requires SegsWF(segs) && l < |segs| && segs[l].base <= id < segs[l].End()
    ensures PartitionPoint(segs, id) == l + 1
  {
    var n := PartitionPoint(segs, id);
    if n < l {
      assert false;
    } else if l + 1 < n {
      assert false;
    }
  }

  lemma FirstDeletedSafe(s: Snapshot)
    requires SegsWF(s.segs) && forall x :: x in s.deleted ==> BaseId(s.segs, x)
    requires s.deleted != {}
    ensures FirstDeletedSegment(s).value < |s.segs| && NoneHiddenBefore(s, FirstDeletedSegment(s).value)
    // and it is the last such place
    ensures !NoneHiddenBefore(s, FirstDeletedSegment(s).value + 1)
  {
    LeastFirst(s.deleted);
    var first := FirstOf(SortedIds(s.deleted));
    var n :| 0 <= n < |s.segs| && s.segs[n].base <= first < s.segs[n].End();
    PartitionPointHolds(s.segs, n, first);
    forall k, x | 0 <= k < n && s.segs[k].base <= x < s.segs[k].End() ensures x !in s.deleted {
      assert s.segs[k].End() <= s.segs[n].base;
    }
  }

  lemma NoneHiddenEarlier(s: Snapshot, start: nat, sooner: nat)
    requires NoneHiddenBefore(s, start) && sooner <= start
    ensures NoneHiddenBefore(s, sooner)
  {
  }

  // ---------------------------------------------------------------- plans

  function CeilDiv(a: nat, b: nat): nat requires b > 0 { (a + (b - 1)) / b }

  // compact_plan.rs:84-93
  function BatchSize(totalBytes: nat, targetSegments: nat): nat {
    if totalBytes == 0 then BATCH_SIZE_BYTES
    else Max(CeilDiv(totalBytes, Max(targetSegments, 1)), BATCH_SIZE_BYTES)
  }

  function MakePlan(lx: Lexer, s: Snapshot, reason: Reason, suffixStart: nat, targetSegments: nat): Plan
    requires suffixStart <= |s.segs|
  {
    var target := Max(targetSegments, 1);
    Plan(reason, suffixStart, BatchSize(RowBytes(SuffixRows(lx, s, suffixStart)), target), target)
  }

  // More than a tenth of the base (compact_plan.rs:118-122).
  predicate OverlayRatioExceeded(s: Snapshot) {
    if DocCount(s.segs) == 0 then |s.overlay.docs| > 0 else 10 * |s.overlay.docs| > DocCount(s.segs)
  }

  predicate SegmentLimitExceeded(s: Snapshot, maxSegments: nat) { |s.segs| > Max(maxSegments, 1) }

  function SuffixStart(s: Snapshot, maxSegments: nat): nat {
    var deleteStart := if FirstDeletedSegment(s).Some? then FirstDeletedSegment(s).value else |s.segs|;
    var limitStart := if SegmentLimitExceeded(s, maxSegments) then Min(Max(maxSegments, 1) - 1, |s.segs|) else |s.segs|;
    Min(deleteStart, limitStart)
  }

  // compact_plan.rs:111-182. `bloat` says that stable file ids ran far ahead
  // of the live paths, a fact of the path index.
  function PlanFor(lx: Lexer, s: Snapshot, maxSegments: nat, bloat: bool): Option<Plan> {
    var ratio, limit := OverlayRatioExceeded(s), SegmentLimitExceeded(s, maxSegments);
    if !ratio && !limit && !bloat then None
    else if !ratio && !limit then Some(MakePlan(lx, s, FileIdBloat, 0, 1))
    else
      var suffixStart := SuffixStart(s, maxSegments);
      var target := if limit then Max(Max(maxSegments, 1) - Min(suffixStart, Max(maxSegments, 1)), 1) else 1;
      Some(MakePlan(lx, s, if ratio then OverlayRatio else SegmentLimit, suffixStart, target))
  }

  // compact_plan.rs:184-199
  function ForcedPlan(lx: Lexer, s: Snapshot, maxSegments: nat, bloat: bool): Option<Plan> {
    var p := PlanFor(lx, s, maxSegments, bloat);
    if p.Some? then p
    else if s.overlay.docs == [] && s.deleted == {} then None
    else
      var start := if FirstDeletedSegment(s).Some? then Min(FirstDeletedSegment(s).value, |s.segs|) else |s.segs|;
      Some(MakePlan(lx, s, ExplicitRequest, start, 1))
  }

  lemma PlanStart(lx: Lexer, s: Snapshot, maxSegments: nat, bloat: bool)
    requires ForcedPlan(lx, s, maxSegments, bloat).Some?
    ensures ForcedPlan(lx, s, maxSegments, bloat).value.suffixStart <= |s.segs|
    ensures FirstDeletedSegment(s).Some? ==>
              ForcedPlan(lx, s, maxSegments, bloat).value.suffixStart <= FirstDeletedSegment(s).value
  {
  }

  // Every plan starts at or before the first hidden document, so the prefix it
  // leaves alone needs no delete-set.
  lemma PlanIsSafe(lx: Lexer, s: Snapshot, maxSegments: nat, bloat: bool)
    requires SegsWF(s.segs) && forall x :: x in s.deleted ==> BaseId(s.segs, x)
    requires ForcedPlan(lx, s, maxSegments, bloat).Some?
    ensures NoneHiddenBefore(s, ForcedPlan(lx, s, maxSegments, bloat).value.suffixStart)
  {
    var start := ForcedPlan(lx, s, maxSegments, bloat).value.suffixStart;
    PlanStart(lx, s, maxSegments, bloat);
    if s.deleted != {} {
      FirstDeletedSafe(s);
      NoneHiddenEarlier(s, FirstDeletedSegment(s).value, start);
    }
  }

  // ---------------------------------------------------------------- what a plan promises

  // The planner stays idle exactly while the overlay is at most a tenth of the
  // base, the segments are within the limit, and file ids are not bloated.
  lemma PlansExactly(lx: Lexer, s: Snapshot, maxSegments: nat, bloat: bool)
    ensures PlanFor(lx, s, maxSegments, bloat).None? <==>
              10 * |s.overlay.docs| <= DocCount(s.segs) && |s.segs| <= Max(maxSegments, 1) && !bloat
  {
  }

  // A caller who insists gets a plan unless there is nothing at all to do.
  lemma ForcedExactly(lx: Lexer, s: Snapshot, maxSegments: nat, bloat: bool)
    ensures ForcedPlan(lx, s, maxSegments, bloat).None? <==>
              s.overlay.docs == [] && s.deleted == {} && |s.segs| <= Max(maxSegments, 1) && !bloat
  {
    PlansExactly(lx, s, maxSegments, bloat);
  }

  // Where a rewrite may start: nothing is hidden before it, and over the limit
  // fewer segments than the limit stay as they are.
  ghost predicate MayStart(s: Snapshot, maxSegments: nat, n: nat) {
    n <= |s.segs| && NoneHiddenBefore(s, n) && (|s.segs| > Max(maxSegments, 1) ==> n < Max(maxSegments, 1))
  }

  lemma LatestStart(s: Snapshot, maxSegments: nat, n: nat)
    requires SegsWF(s.segs) && forall x :: x in s.deleted ==> BaseId(s.segs, x)
    ensures MayStart(s, maxSegments, SuffixStart(s, maxSegments))
    ensures MayStart(s, maxSegments, n) ==> n <= SuffixStart(s, maxSegments)
  {
    if s.deleted != {} {
      var first := FirstDeletedSegment(s).value;
      FirstDeletedSafe(s);
      NoneHiddenEarlier(s, first, SuffixStart(s, maxSegments));
      if n > first && NoneHiddenBefore(s, n) {
        NoneHiddenEarlier(s, n, first + 1);
      }
    }
  }

  lemma ForcedStart(lx: Lexer, s: Snapshot, maxSegments: nat, bloat: bool)
    requires ForcedPlan(lx, s, maxSegments, bloat).Some?
    ensures var p := ForcedPlan(lx, s, maxSegments, bloat).value;
            && (p.reason != FileIdBloat ==> p.suffixStart == SuffixStart(s, maxSegments))
            && (p.reason == FileIdBloat ==>
                  p.suffixStart == 0 && bloat && |s.segs| <= Max(maxSegments, 1)
                  && 10 * |s.overlay.docs| <= DocCount(s.segs))
  {
  }

  // A plan rewrites no more than it must: it starts at the last such place.
  // Only bloat on its own rewrites everything.
  lemma PlanStartsLatest(lx: Lexer, s: Snapshot, maxSegments: nat, bloat: bool, n: nat)
    requires SegsWF(s.segs) && forall x :: x in s.deleted ==> BaseId(s.segs, x)
    requires ForcedPlan(lx, s, maxSegments, bloat).Some?
    ensures var p := ForcedPlan(lx, s, maxSegments, bloat).value;
            && MayStart(s, maxSegments, p.suffixStart)
            && (p.reason != FileIdBloat && MayStart(s, maxSegments, n) ==> n <= p.suffixStart)
            && (p.reason == FileIdBloat ==>
                  p.suffixStart == 0 && bloat && |s.segs| <= Max(maxSegments, 1)
                  && 10 * |s.overlay.docs| <= DocCount(s.segs))
  {
    LatestStart(s, maxSegments, n);
    ForcedStart(lx, s, maxSegments, bloat);
  }

  // Over the limit, kept segments and target add up to the limit; otherwise
  // the target is one. The batch is the smallest of at least the build's size
  // whose multiple by the target covers what is rewritten.
  lemma PlanBatchFits(lx: Lexer, s: Snapshot, maxSegments: nat, bloat: bool)
    requires ForcedPlan(lx, s, maxSegments, bloat).Some?
    ensures var p := ForcedPlan(lx, s, maxSegments, bloat).value;
            && p.suffixStart <= |s.segs|
            && p.targetSegments == (if |s.segs| > Max(maxSegments, 1) then Max(maxSegments, 1) - p.suffixStart else 1)
            && p.batchSizeBytes >= 268_435_456
            && p.targetSegments * p.batchSizeBytes >= RowBytes(SuffixRows(lx, s, p.suffixStart))
            && (p.batchSizeBytes > 268_435_456 ==>
                  p.targetSegments * (p.batchSizeBytes - 1) < RowBytes(SuffixRows(lx, s, p.suffixStart)))
  {
    var p := ForcedPlan(lx, s, maxSegments, bloat).value;
    PlanStart(lx, s, maxSegments, bloat);
    BatchFits(RowBytes(SuffixRows(lx, s, p.suffixStart)), p.targetSegments);
  }

  lemma BatchFits(total: nat, target: nat)
    requires target >= 1
    ensures target * BatchSize(total, target) >= total && BatchSize(total, target) >= BATCH_SIZE_BYTES
    ensures BatchSize(total, target) > BATCH_SIZE_BYTES ==> target * (BatchSize(total, target) - 1) < total
  {
    var q := (total + (target - 1)) / target;
    assert total + (target - 1) == q * target + (total + (target - 1)) % target;
    assert q * target >= total && (q - 1) * target < total + (if q == 0 then 1 else 0);
    MulGrows(target, q, BatchSize(total, target));
  }

  lemma MulGrows(a: nat, b: nat, c: nat)
    ensures b <= c ==> a * b <= a * c
  {
  }

  // A plan computes its batch from the live bytes it is about to rewrite.
  method ComputePlan(ghost lx: Lexer, s: Snapshot, reason: Reason, suffixStart: nat, targetSegments: nat)
    returns (p: Plan)
    requires SegsWF(s.segs) && suffixStart <= |s.segs|
    ensures p == MakePlan(lx, s, reason, suffixStart, targetSegments)
  {
    p := Plan(reason, suffixStart, BATCH_SIZE_BYTES, Max(targetSegments, 1));
    var totalBytes := LiveSnapshotBytesFrom(lx, s, suffixStart);
    p := p.(batchSizeBytes := BatchSize(totalBytes, p.targetSegments));
  }
}
