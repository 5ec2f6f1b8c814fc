// What compaction makes of a snapshot (compact.rs:146-323): the prefix stays,
// everything live after it is renumbered, repacked and reindexed, and the
// delete-set and the overlay are dropped.
module Compact {
  import opened Common
  import opened Snapshots
  import opened CompactPlan
  import opened Packing

  function DocOf(r: Row): Doc { Doc(r.id, r.path, r.entry.hash, r.entry.size) }

  function RowSizes(rows: seq<Row>): (r: seq<nat>)
    ensures |r| == |rows| && forall i :: 0 <= i < |r| ==> r[i] == rows[i].entry.size
  {
    seq(|rows|, i requires 0 <= i < |rows| => rows[i].entry.size)
  }

  function RenumberRows(rows: seq<Row>, start: nat): (r: seq<Row>)
    ensures |r| == |rows| && forall i :: 0 <= i < |r| ==> r[i] == rows[i].(id := start + i)
  {
    seq(|rows|, i requires 0 <= i < |rows| => rows[i].(id := start + i))
  }

  // `x` is the new id of one of rows `lo..hi`, and that row holds the gram.
  ghost predicate HasGram(rows: seq<Row>, limit: nat, lo: nat, hi: nat, g: Gram, x: nat)
    requires hi <= |rows|
  {
    limit + lo <= x < limit + hi && g in rows[x - limit].entry.grams
  }

  // An output segment holds rows `lo..hi` under their new ids.
  ghost predicate IsOutput(seg: Segment, rows: seq<Row>, limit: nat, lo: nat, hi: nat) {
    && lo < hi <= |rows| && seg.base == limit + lo && |seg.docs| == hi - lo
    && (forall i :: 0 <= i < |seg.docs| ==> seg.docs[i] == DocOf(rows[lo + i]).(id := seg.base + i))
    && seg.docBytes == Some(SumSizes(seg.docs))
    && (forall g :: g in seg.postings ==> Ascending(seg.postings[g]))
    && (forall g: Gram, x: nat :: Posted(seg.postings, g, x) <==> HasGram(rows, limit, lo, hi, g, x))
  }

  ghost predicate AreOutputs(outs: seq<Segment>, rows: seq<Row>, limit: nat, starts: seq<nat>) {
    && |outs| == |starts|
    && forall t :: 0 <= t < |outs| ==> IsOutput(outs[t], rows, limit, starts[t], EndOf(starts, t, |rows|))
  }

  // `s2` keeps the first `start` segments of `base`; after them comes
  // everything live in `s` from segment `start` on.
  ghost predicate IsCompactedOnto(lx: Lexer, s: Snapshot, base: seq<Segment>, start: nat, batch: nat, s2: Snapshot) {
    && start <= |s.segs| && start <= |base| && start <= |s2.segs|
    && s2.deleted == {} && s2.overlay == EmptyOverlay
    && s2.segs[..start] == base[..start]
    && AreOutputs(s2.segs[start..], SuffixRows(lx, s, start), Limit(base[..start]), StartsFor(lx, s, start, batch))
  }

  // Where the output segments begin among the rows to be rewritten.
  function StartsFor(lx: Lexer, s: Snapshot, start: nat, batch: nat): seq<nat>
    requires start <= |s.segs|
  {
    Pack(RowSizes(SuffixRows(lx, s, start)), batch).starts
  }

  ghost predicate IsCompacted(lx: Lexer, s: Snapshot, start: nat, batch: nat, s2: Snapshot) {
    IsCompactedOnto(lx, s, s.segs, start, batch, s2)
  }

  // The condition for the result to open: its ids stay within the ceiling.
  predicate FitsAfter(lx: Lexer, s: Snapshot, start: nat, limit: nat)
    requires start <= |s.segs|
  {
    limit + |SuffixRows(lx, s, start)| <= MAX_TOTAL_DOCS
  }

  predicate FitsCeiling(lx: Lexer, s: Snapshot, start: nat)
    requires start <= |s.segs|
  {
    FitsAfter(lx, s, start, Limit(s.segs[..start]))
  }

  lemma {:induction false} KeepNoMore(rows: seq<Row>, hidden: set<nat>)
    ensures |Keep(rows, hidden)| <= |rows|
  {
    if |rows| != 0 {
      KeepNoMore(rows[..|rows| - 1], hidden);
    }
  }

  lemma {:induction false} RowsFitBetween(segs: seq<Segment>, start: nat, k: nat)
    requires SegsWF(segs) && start <= k <= |segs|
    ensures Limit(segs[..start]) + |AllRows(segs[start..k])| <= Limit(segs[..k])
    decreases k
  {
    if start < k {
      RowsFitBetween(segs, start, k - 1);
      assert segs[start..k][..k - start - 1] == segs[start..k - 1];
      if k > 1 {
        assert segs[k - 2].End() <= segs[k - 1].base;
      }
    } else {
      assert segs[start..k] == [];
    }
  }

  // Without an overlay a compaction always stays within the ceiling.
  lemma SettledFits(lx: Lexer, s: Snapshot, start: nat)
    requires SegsWF(s.segs) && s.overlay.docs == [] && start <= |s.segs|
    ensures FitsCeiling(lx, s, start)
  {
    RowsFitBetween(s.segs, start, |s.segs|);
    assert s.segs[..|s.segs|] == s.segs && s.segs[start..|s.segs|] == s.segs[start..];
    KeepNoMore(AllRows(s.segs[start..]), s.deleted);
    LimitBounds(s.segs);
    assert OverlayRows(lx, []) == [];
  }

  // ---------------------------------------------------------------- rows of the outputs

  lemma OutputRows(seg: Segment, rows: seq<Row>, limit: nat, lo: nat, hi: nat)
    requires IsOutput(seg, rows, limit, lo, hi)
    ensures SegRows(seg) == RenumberRows(rows, limit)[lo..hi]
    ensures SegWF(seg)
  {
    forall i | 0 <= i < |seg.docs| ensures SegRows(seg)[i] == RenumberRows(rows, limit)[lo..hi][i] {
      var x := seg.base + i;
      forall g: Gram ensures g in seg.GramsOf(x) <==> g in rows[lo + i].entry.grams {
        assert Posted(seg.postings, g, x) <==> HasGram(rows, limit, lo, hi, g, x);
      }
      assert seg.GramsOf(x) == rows[lo + i].entry.grams;
    }
    forall g, x | g in seg.postings && x in seg.postings[g] ensures seg.base <= x < seg.End() {
      assert Posted(seg.postings, g, x);
    }
  }

  function StartOf(starts: seq<nat>, t: nat, n: nat): nat { if t < |starts| then starts[t] else n }

  lemma TakeMore<T>(xs: seq<T>, lo: nat, hi: nat)
    requires lo <= hi <= |xs|
    ensures xs[..lo] + xs[lo..hi] == xs[..hi]
  {
  }

  lemma {:induction false} OutputsRows(outs: seq<Segment>, rows: seq<Row>, limit: nat, starts: seq<nat>, t: nat)
    requires AreOutputs(outs, rows, limit, starts) && Tiles(starts, |rows|) && t <= |outs|
    ensures StartOf(starts, t, |rows|) <= |rows|
    ensures AllRows(outs[..t]) == RenumberRows(rows, limit)[..StartOf(starts, t, |rows|)]
  {
    if t != 0 {
      var lo, hi := starts[t - 1], EndOf(starts, t - 1, |rows|);
      OutputsRows(outs, rows, limit, starts, t - 1);
      OutputRows(outs[t - 1], rows, limit, lo, hi);
      assert outs[..t][..t - 1] == outs[..t - 1];
      TakeMore(RenumberRows(rows, limit), lo, hi);
    }
  }

  // Outputs follow each other without gaps, from the end of the prefix on.
  lemma OutputsTile(outs: seq<Segment>, rows: seq<Row>, limit: nat, starts: seq<nat>, t: nat, u: nat)
    requires AreOutputs(outs, rows, limit, starts) && Tiles(starts, |rows|) && t < |outs|
    ensures outs[t].End() == limit + EndOf(starts, t, |rows|)
    ensures t < u < |outs| ==> outs[t].End() <= outs[u].base
    ensures t == 0 ==> outs[t].base == limit
    ensures t + 1 < |outs| ==> outs[t].End() == outs[t + 1].base
  {
    assert IsOutput(outs[t], rows, limit, starts[t], EndOf(starts, t, |rows|));
    if t + 1 < |outs| {
      assert IsOutput(outs[t + 1], rows, limit, starts[t + 1], EndOf(starts, t + 1, |rows|));
    }
    if t < u < |outs| {
      assert IsOutput(outs[u], rows, limit, starts[u], EndOf(starts, u, |rows|));
      TilesAscend(starts, |rows|, t, u);
    }
  }

  lemma OutputSizes(seg: Segment, rows: seq<Row>, limit: nat, lo: nat, hi: nat)
    requires IsOutput(seg, rows, limit, lo, hi)
    ensures DocSizes(seg.docs) == RowSizes(rows)[lo..hi]
  {
  }

  // Each rewritten segment is as full as the order of the documents allows: it
  // stays within the batch unless a single document exceeds it, and the first
  // document of the next one would not have fitted.
  lemma OutputsGreedy(lx: Lexer, s: Snapshot, base: seq<Segment>, start: nat, batch: nat, s2: Snapshot, k: nat)
    requires IsCompactedOnto(lx, s, base, start, batch, s2) && start <= k < |s2.segs|
    ensures |s2.segs[k].docs| == 1 || TotalCost(DocSizes(s2.segs[k].docs)) <= batch
    ensures k + 1 < |s2.segs| ==>
              && s2.segs[k + 1].docs != []
              && TotalCost(DocSizes(s2.segs[k].docs)) + Cost(s2.segs[k + 1].docs[0].size) > batch
  {
    var rows, outs, t := SuffixRows(lx, s, start), s2.segs[start..], k - start;
    var starts, limit := StartsFor(lx, s, start, batch), Limit(base[..start]);
    PackGreedy(RowSizes(rows), batch, t);
    assert IsOutput(outs[t], rows, limit, starts[t], EndOf(starts, t, |rows|));
    OutputSizes(outs[t], rows, limit, starts[t], EndOf(starts, t, |rows|));
    if k + 1 < |s2.segs| {
      assert IsOutput(outs[t + 1], rows, limit, starts[t + 1], EndOf(starts, t + 1, |rows|));
    }
  }

  lemma OutputsWF(outs: seq<Segment>, rows: seq<Row>, limit: nat, starts: seq<nat>)
    requires AreOutputs(outs, rows, limit, starts) && Tiles(starts, |rows|)
    requires limit + |rows| <= MAX_TOTAL_DOCS
    ensures SegsWF(outs) && forall k :: 0 <= k < |outs| ==> limit <= outs[k].base
  {
    forall k | 0 <= k < |outs| ensures SegWF(outs[k]) && outs[k].End() <= MAX_TOTAL_DOCS && limit <= outs[k].base {
      OutputRows(outs[k], rows, limit, starts[k], EndOf(starts, k, |rows|));
    }
    forall k, l | 0 <= k < l < |outs| ensures outs[k].End() <= outs[l].base {
      OutputsTile(outs, rows, limit, starts, k, l);
    }
  }

  lemma SegsWFAppend(a: seq<Segment>, b: seq<Segment>)
    requires SegsWF(a) && SegsWF(b) && forall k :: 0 <= k < |b| ==> Limit(a) <= b[k].base
    ensures SegsWF(a + b)
  {
    LimitBounds(a);
    var segs := a + b;
    forall k, l | 0 <= k < l < |segs| ensures segs[k].End() <= segs[l].base {
      if |a| <= k {
        assert b[k - |a|].End() <= b[l - |a|].base;
      } else if |a| <= l {
        assert a[k].End() <= Limit(a) <= b[l - |a|].base;
      } else {
        assert a[k].End() <= a[l].base;
      }
    }
  }

  // ---------------------------------------------------------------- meaning is preserved

  lemma PrefixVisible(s: Snapshot, start: nat)
    requires SegsWF(s.segs) && NoneHiddenBefore(s, start)
    ensures Keep(AllRows(s.segs[..start]), s.deleted) == AllRows(s.segs[..start])
  {
    var prefix := s.segs[..start];
    forall r | r in AllRows(prefix) ensures r.id !in s.deleted {
      AllRowsMember(prefix, r);
      var k, i :| 0 <= k < |prefix| && 0 <= i < |prefix[k].docs| && r == DocRow(prefix[k], prefix[k].docs[i]);
      assert SegWF(s.segs[k]);
      assert s.segs[k].base <= r.id < s.segs[k].End();
    }
    KeepAll(AllRows(prefix), s.deleted);
  }

  lemma JoinRows(lx: Lexer, s: Snapshot, prefix: seq<Segment>, rest: seq<Segment>)
    requires s.segs == prefix + rest && Keep(AllRows(prefix), s.deleted) == AllRows(prefix)
    ensures Rows(lx, s) == AllRows(prefix) + (Keep(AllRows(rest), s.deleted) + OverlayRows(lx, s.overlay.docs))
  {
    var a, b, c := AllRows(prefix), Keep(AllRows(rest), s.deleted), OverlayRows(lx, s.overlay.docs);
    AllRowsAppend(prefix, rest);
    KeepAppend(AllRows(prefix), AllRows(rest), s.deleted);
    ConcatAssoc(a, b, c);
  }

  // Nothing is hidden in the prefix, so the live rows are the prefix rows
  // followed by those about to be rewritten.
  lemma RowsSplit(lx: Lexer, s: Snapshot, start: nat)
    requires SegsWF(s.segs) && NoneHiddenBefore(s, start)
    ensures Rows(lx, s) == AllRows(s.segs[..start]) + SuffixRows(lx, s, start)
  {
    PrefixVisible(s, start);
    assert s.segs == s.segs[..start] + s.segs[start..];
    JoinRows(lx, s, s.segs[..start], s.segs[start..]);
  }

  lemma AllOutputRows(outs: seq<Segment>, rows: seq<Row>, limit: nat, batch: nat)
    requires AreOutputs(outs, rows, limit, Pack(RowSizes(rows), batch).starts)
    ensures AllRows(outs) == RenumberRows(rows, limit)
  {
    PackTiles(RowSizes(rows), batch);
    OutputsRows(outs, rows, limit, Pack(RowSizes(rows), batch).starts, |outs|);
    assert outs[..|outs|] == outs && RenumberRows(rows, limit)[..|rows|] == RenumberRows(rows, limit);
  }

  lemma SettledRows(lx: Lexer, s: Snapshot, prefix: seq<Segment>, rest: seq<Segment>)
    requires s.segs == prefix + rest && s.deleted == {} && s.overlay == EmptyOverlay
    ensures Rows(lx, s) == AllRows(prefix) + AllRows(rest)
  {
    KeepAll(AllRows(prefix), {});
    KeepAll(AllRows(rest), {});
    JoinRows(lx, s, prefix, rest);
    assert OverlayRows(lx, EmptyOverlay.docs) == [];
  }

  lemma CompactedRows(lx: Lexer, s: Snapshot, base: seq<Segment>, start: nat, batch: nat, s2: Snapshot)
    requires IsCompactedOnto(lx, s, base, start, batch, s2)
    ensures Rows(lx, s2) == AllRows(base[..start]) + RenumberRows(SuffixRows(lx, s, start), Limit(base[..start]))
  {
    AllOutputRows(s2.segs[start..], SuffixRows(lx, s, start), Limit(base[..start]), batch);
    Rejoin(s2.segs, start);
    SettledRows(lx, s2, s2.segs[..start], s2.segs[start..]);
  }

  lemma Rejoin<T>(xs: seq<T>, n: nat)
    requires n <= |xs|
    ensures xs == xs[..n] + xs[n..]
  {
  }

  lemma SameMeaning(lx: Lexer, s: Snapshot, s2: Snapshot)
    requires SameButIds(Rows(lx, s), Rows(lx, s2)) && DistinctPaths(Rows(lx, s))
    ensures DistinctPaths(Rows(lx, s2)) && View(lx, s2) == View(lx, s)
  {
    SameButIdsSameView(Rows(lx, s), Rows(lx, s2));
  }

  lemma RenumberedSame(rows: seq<Row>, prefix: seq<Row>, start: nat)
    ensures SameButIds(prefix + rows, prefix + RenumberRows(rows, start))
  {
  }

  // Documents keep their order; those after the prefix are numbered
  // consecutively from its end.
  lemma CompactionRenumbers(lx: Lexer, s: Snapshot, start: nat, batch: nat, s2: Snapshot)
    requires SegsWF(s.segs) && NoneHiddenBefore(s, start) && IsCompacted(lx, s, start, batch, s2)
    ensures Rows(lx, s) == AllRows(s.segs[..start]) + SuffixRows(lx, s, start)
    ensures Rows(lx, s2) == AllRows(s.segs[..start]) + RenumberRows(SuffixRows(lx, s, start), Limit(s.segs[..start]))
    ensures SameButIds(Rows(lx, s), Rows(lx, s2))
  {
    RowsSplit(lx, s, start);
    CompactedRows(lx, s, s.segs, start, batch, s2);
    RenumberedSame(SuffixRows(lx, s, start), AllRows(s.segs[..start]), Limit(s.segs[..start]));
  }

  // Main compaction theorem: whatever was hidden stays gone although the
  // delete-set is dropped, and the path map is the same.
  lemma CompactionKeepsMeaning(lx: Lexer, s: Snapshot, start: nat, batch: nat, s2: Snapshot)
    requires SnapshotWF(lx, s) && NoneHiddenBefore(s, start)
    requires IsCompacted(lx, s, start, batch, s2) && FitsCeiling(lx, s, start)
    ensures SnapshotWF(lx, s2) && View(lx, s2) == View(lx, s)
  {
    CompactionRenumbers(lx, s, start, batch, s2);
    SameMeaning(lx, s, s2);
    CompactedWF(lx, s, s.segs, start, batch, s2);
    EmptyOverlayWF(lx, Limit(s2.segs));
  }

  lemma CompactedWF(lx: Lexer, s: Snapshot, base: seq<Segment>, start: nat, batch: nat, s2: Snapshot)
    requires SegsWF(base) && IsCompactedOnto(lx, s, base, start, batch, s2)
    requires FitsAfter(lx, s, start, Limit(base[..start]))
    ensures SegsWF(s2.segs)
  {
    var rows, prefix, outs := SuffixRows(lx, s, start), base[..start], s2.segs[start..];
    PackTiles(RowSizes(rows), batch);
    SegsWFPrefix(base, start);
    OutputsWF(outs, rows, Limit(prefix), StartsFor(lx, s, start, batch));
    SegsWFAppend(prefix, outs);
    assert s2.segs == prefix + outs;
  }

  // Every gram leads to the same paths as before.
  lemma CompactionKeepsQueries(lx: Lexer, s: Snapshot, start: nat, batch: nat, s2: Snapshot, g: Gram)
    requires SnapshotWF(lx, s) && NoneHiddenBefore(s, start)
    requires IsCompacted(lx, s, start, batch, s2) && FitsCeiling(lx, s, start)
    ensures QueryPaths(lx, s2, g) == QueryPaths(lx, s, g)
  {
    CompactionKeepsMeaning(lx, s, start, batch, s2);
    QueryExact(lx, s, g);
    QueryExact(lx, s2, g);
  }
}
