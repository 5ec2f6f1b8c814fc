// Writing the output segments of a compaction and publishing them
// (compact.rs:97-182, 256-323).
module CompactPublish {
  import opened Common
  import opened Snapshots
  import opened Disk
  import opened Writers
  import opened Packing
  import opened CompactPlan
  import opened Compact
  import opened Compaction
  import opened CompactApply

  // ---------------------------------------------------------------- from writers to segments

  function OutputOf(w: Writer, base: nat): Segment {
    Segment(base, w.docs, PostingMap(w.pairs), Some(SumSizes(w.docs)))
  }

  function OutputsOf(writers: seq<Writer>, bases: seq<nat>): (outs: seq<Segment>)
    requires |writers| == |bases|
    ensures |outs| == |writers| && forall t :: 0 <= t < |outs| ==> outs[t] == OutputOf(writers[t], bases[t])
  {
    seq(|writers|, t requires 0 <= t < |writers| => OutputOf(writers[t], bases[t]))
  }

  // The live postings of a row are its grams, whichever layer it comes from.
  lemma PostedIsHeld(lx: Lexer, s: Snapshot, start: nat, r: Row, g: Gram)
    requires LayersWF(lx, s) && start <= |s.segs| && r in SuffixRows(lx, s, start)
    ensures PostedIn(s, start, g, r.id) <==> g in r.entry.grams
  {
    if r in OverlayRows(lx, s.overlay.docs) {
      OverlayRowPosted(lx, s, start, r, g);
    } else {
      KeepMember(AllRows(s.segs[start..]), s.deleted);
      var k, i := SuffixDocument(s.segs, start, r);
      BaseRowPosted(lx, s, start, k, i, g);
    }
  }

  lemma SuffixDocument(segs: seq<Segment>, start: nat, r: Row) returns (k: nat, i: nat)
    requires start <= |segs| && r in AllRows(segs[start..])
    ensures start <= k < |segs| && i < |segs[k].docs| && r == DocRow(segs[k], segs[k].docs[i])
  {
    var suffix := segs[start..];
    AllRowsMember(suffix, r);
    k, i :| 0 <= k < |suffix| && 0 <= i < |suffix[k].docs| && r == DocRow(suffix[k], suffix[k].docs[i]);
    k := start + k;
  }

  lemma OverlayRowPosted(lx: Lexer, s: Snapshot, start: nat, r: Row, g: Gram)
    requires LayersWF(lx, s) && start <= |s.segs| && r in OverlayRows(lx, s.overlay.docs)
    ensures PostedIn(s, start, g, r.id) <==> g in r.entry.grams
  {
    var i :| 0 <= i < |s.overlay.docs| && OverlayRows(lx, s.overlay.docs)[i] == r;
    assert Posted(s.overlay.gramIndex, g, r.id) <==> Holds(s.overlay.docs, g, r.id);
    if Holds(s.overlay.docs, g, r.id) {
      var j :| 0 <= j < |s.overlay.docs| && s.overlay.docs[j].id == r.id && g in s.overlay.docs[j].grams;
      assert i == j;
    }
    NotBasePosted(lx, s, start, g, r.id);
  }

  lemma NotBasePosted(lx: Lexer, s: Snapshot, start: nat, g: Gram, x: nat)
    requires LayersWF(lx, s) && start <= |s.segs| && Limit(s.segs) <= x
    ensures !PostedBase(s.segs, start, |s.segs|, g, x)
  {
    if l :| start <= l < |s.segs| && Posted(s.segs[l].postings, g, x) {
      assert SegWF(s.segs[l]);
      LimitBounds(s.segs);
      assert false;
    }
  }

  lemma BaseRowPosted(lx: Lexer, s: Snapshot, start: nat, k: nat, i: nat, g: Gram)
    requires LayersWF(lx, s) && start <= k < |s.segs| && i < |s.segs[k].docs|
    ensures PostedIn(s, start, g, s.segs[k].docs[i].id) <==> g in s.segs[k].GramsOf(s.segs[k].docs[i].id)
  {
    var x := s.segs[k].docs[i].id;
    assert SegWF(s.segs[k]) && x == s.segs[k].base + i;
    LimitBounds(s.segs);
    assert Posted(s.overlay.gramIndex, g, x) <==> Holds(s.overlay.docs, g, x);
    if l :| start <= l < |s.segs| && Posted(s.segs[l].postings, g, x) {
      SameSegment(s.segs, k, l, g, x);
    }
  }

  lemma SameSegment(segs: seq<Segment>, k: nat, l: nat, g: Gram, x: nat)
    requires SegsWF(segs) && k < |segs| && l < |segs|
    requires segs[k].base <= x < segs[k].End() && Posted(segs[l].postings, g, x)
    ensures k == l
  {
    assert SegWF(segs[l]);
    if k < l {
      assert false;
    } else if l < k {
      assert false;
    }
  }

  // What a finished state makes of the live rows.
  ghost predicate Finished(lx: Lexer, s: Snapshot, start: nat, writers: seq<Writer>, bases: seq<nat>, limit: nat,
                           batch: nat)
    requires start <= |s.segs| && |writers| == |bases|
  {
    AreOutputs(OutputsOf(writers, bases), SuffixRows(lx, s, start), limit, StartsFor(lx, s, start, batch))
  }

  // The postings seen are exactly the grams of the live rows.
  ghost predicate PostedAreHeld(rows: seq<Row>, posted: set<(Gram, nat)>) {
    forall k, g: Gram :: 0 <= k < |rows| ==> ((g, rows[k].id) in posted <==> g in rows[k].entry.grams)
  }

  lemma AllPostedHeld(lx: Lexer, s: Snapshot, start: nat, posted: set<(Gram, nat)>)
    requires LayersWF(lx, s) && start <= |s.segs| && posted == PostedAll(s, start)
    ensures PostedAreHeld(SuffixRows(lx, s, start), posted)
  {
    var rows := SuffixRows(lx, s, start);
    forall k, g: Gram | 0 <= k < |rows| ensures (g, rows[k].id) in posted <==> g in rows[k].entry.grams {
      PostedAllExact(s, start, g, rows[k].id);
      PostedIsHeld(lx, s, start, rows[k], g);
    }
  }

  lemma RemappedIsHeld(rows: seq<Row>, limit: nat, starts: seq<nat>, t: nat, posted: set<(Gram, nat)>, g: Gram, x: nat)
    requires Tiles(starts, |rows|) && t < |starts| && PostedAreHeld(rows, posted)
    ensures EndOf(starts, t, |rows|) <= |rows|
    ensures Remapped(starts, DocsOf(rows), limit, posted, t, g, x) <==>
              HasGram(rows, limit, starts[t], EndOf(starts, t, |rows|), g, x)
  {
    if limit <= x < limit + |rows| {
      SegmentOfUnique(starts, |rows|, x - limit, t);
    }
  }

  lemma WriterIsOutput(w: Writer, base: nat, rows: seq<Row>, limit: nat, starts: seq<nat>, t: nat,
                       posted: set<(Gram, nat)>)
    requires Tiles(starts, |rows|) && t < |starts| && PostedAreHeld(rows, posted)
    requires WriterHolds(w, base, DocsOf(rows), limit, starts[t], EndOf(starts, t, |rows|))
    requires forall g: Gram, n: nat :: (g, n) in w.pairs <==> Remapped(starts, DocsOf(rows), limit, posted, t, g, n)
    ensures IsOutput(OutputOf(w, base), rows, limit, starts[t], EndOf(starts, t, |rows|))
    ensures DocsAscend(w.docs)
  {
    PostingMapExact(w.pairs);
    forall g: Gram, x: nat
      ensures Posted(PostingMap(w.pairs), g, x) <==> HasGram(rows, limit, starts[t], EndOf(starts, t, |rows|), g, x)
    {
      RemappedIsHeld(rows, limit, starts, t, posted, g, x);
    }
  }

  lemma StateFinished(lx: Lexer, s: Snapshot, start: nat, st: CompactionState)
    requires start <= |s.segs| && PostedAreHeld(SuffixRows(lx, s, start), st.posted)
    requires st.Valid() && st.PostingsOk() && st.added == DocsOf(SuffixRows(lx, s, start))
    ensures |st.writers| == |st.writerBaseDocIds|
    ensures Finished(lx, s, start, st.writers, st.writerBaseDocIds, st.start, st.batchSizeBytes)
    ensures forall t :: 0 <= t < |st.writers| ==> DocsAscend(st.writers[t].docs)
  {
    var rows := SuffixRows(lx, s, start);
    assert DocSizes(st.added) == RowSizes(rows);
    PackTiles(RowSizes(rows), st.batchSizeBytes);
    forall t | 0 <= t < |st.writers|
      ensures IsOutput(OutputOf(st.writers[t], st.writerBaseDocIds[t]), rows, st.start, st.starts[t],
                       EndOf(st.starts, t, |rows|))
      ensures DocsAscend(st.writers[t].docs)
    {
      assert WriterHolds(st.writers[t], st.writerBaseDocIds[t], st.added, st.start, st.starts[t],
                         EndOf(st.starts, t, |rows|));
      WriterIsOutput(st.writers[t], st.writerBaseDocIds[t], rows, st.start, st.starts, t, st.posted);
    }
  }

  // Collect, remap: the writers of a whole compaction.
  method CollectOutputs(lx: Lexer, s: Snapshot, start: nat, limit: nat, batch: nat)
    returns (r: Result<(seq<Writer>, seq<nat>)>)
    requires LayersWF(lx, s) && start <= |s.segs| && limit <= U32_MAX
    ensures r.Ok? <==> limit + |SuffixRows(lx, s, start)| <= U32_MAX
    ensures r.Err? ==> r.error == DocIdOverflow
    ensures r.Ok? ==> |r.value.0| == |r.value.1| && Finished(lx, s, start, r.value.0, r.value.1, limit, Max(batch, 1))
    ensures r.Ok? ==> forall t :: 0 <= t < |r.value.0| ==> DocsAscend(r.value.0[t].docs)
  {
    var st := new CompactionState(limit, batch);
    var ok := AddSuffix(lx, s, start, st);
    if !ok {
      return Err(DocIdOverflow);
    }
    st.BeginRemapping();
    MapPostings(lx, s, start, st);
    AllPostedHeld(lx, s, start, st.posted);
    StateFinished(lx, s, start, st);
    r := Ok((st.writers, st.writerBaseDocIds));
  }

  // ---------------------------------------------------------------- manifest bases

  // Where each segment starts: recorded, or else right after the one before
  // it (compact.rs:97-106).
  function BasesOf(refs: seq<SegmentRef>): (bases: seq<nat>)
    ensures |bases| == |refs|
  {
    if |refs| == 0 then []
    else
      var n := |refs| - 1;
      var before := BasesOf(refs[..n]);
      before + [if refs[n].baseDocId.Some? then refs[n].baseDocId.value
                else if n == 0 then 0 else Min(before[n - 1] + refs[n - 1].docCount, U32_MAX)]
  }

  method ManifestSegmentBases(refs: seq<SegmentRef>) returns (bases: seq<nat>)
    ensures bases == BasesOf(refs)
  {
    var nextBase := 0;
    bases := [];
    for k := 0 to |refs|
      invariant bases == BasesOf(refs[..k])
      invariant nextBase == if k == 0 then 0 else Min(bases[k - 1] + refs[k - 1].docCount, U32_MAX)
    {
      var base := if refs[k].baseDocId.Some? then refs[k].baseDocId.value else nextBase;
      assert refs[..k + 1][..k] == refs[..k];
      bases := bases + [base];
      nextBase := Min(base + refs[k].docCount, U32_MAX);
    }
    assert refs[..|refs|] == refs;
  }

  // Opening places segments at the same bases.
  lemma {:induction false} BasesAgree(files: map<Name, File>, refs: seq<SegmentRef>, segs: seq<Segment>)
    requires OpenSegments(files, refs) == Ok(segs) && |refs| == |segs|
    requires forall k :: 0 <= k < |segs| ==> refs[k].docCount == |segs[k].docs|
    ensures forall k :: 0 <= k < |segs| ==> BasesOf(refs)[k] == segs[k].base && segs[k].End() <= MAX_TOTAL_DOCS
  {
    if |refs| != 0 {
      var n := |refs| - 1;
      OpenSegmentsShape(files, refs);
      assert segs[..n] == OpenSegments(files, refs[..n]).value;
      BasesAgree(files, refs[..n], segs[..n]);
      if n > 0 {
        assert BasesOf(refs[..n])[n - 1] == segs[n - 1].base;
      }
    }
  }

  // Refuse a snapshot whose segments do not sit where the manifest puts them
  // (compact.rs:112-144). Document counts are not compared.
  predicate BasesMatch(s: Snapshot, bases: seq<nat>) {
    |s.segs| == |bases| && forall k :: 0 <= k < |bases| ==> s.segs[k].base == bases[k]
  }

  // The prefix references with their bases recorded.
  function Pinned(refs: seq<SegmentRef>, bases: seq<nat>): (r: seq<SegmentRef>)
    requires |refs| <= |bases|
    ensures |r| == |refs| && forall k :: 0 <= k < |r| ==> r[k] == refs[k].(baseDocId := Some(bases[k]))
  {
    seq(|refs|, k requires 0 <= k < |refs| => refs[k].(baseDocId := Some(bases[k])))
  }

  lemma {:induction false} PinnedOpens(files: map<Name, File>, refs: seq<SegmentRef>, bases: seq<nat>,
                                       segs: seq<Segment>)
    requires OpenSegments(files, refs) == Ok(segs) && |refs| == |segs| <= |bases|
    requires forall k :: 0 <= k < |segs| ==> bases[k] == segs[k].base
    ensures OpenSegments(files, Pinned(refs, bases)) == Ok(segs)
  {
    if |refs| != 0 {
      var n := |refs| - 1;
      OpenSegmentsShape(files, refs);
      assert segs[..n] == OpenSegments(files, refs[..n]).value;
      assert Pinned(refs, bases)[..n] == Pinned(refs[..n], bases);
      PinnedOpens(files, refs[..n], bases, segs[..n]);
      assert segs == segs[..n] + [segs[n]];
    }
  }

  // ---------------------------------------------------------------- writing the segments

  // A reference whose files hold one output segment.
  ghost predicate OutputWritten(files: map<Name, File>, r: SegmentRef, out: Segment, lo: nat, hi: nat) {
    && r.dict.DictFile? && r.post.PostFile? && lo <= r.dict.uid < hi && lo <= r.post.uid < hi
    && r.baseDocId == Some(out.base) && r.docCount == |out.docs| && r.docBytes == out.docBytes
    && r.dict in files && files[r.dict] == Dict(out.docs)
    && r.post in files && files[r.post] == Post(out.postings)
  }

  ghost predicate OutputsWritten(files: map<Name, File>, refs: seq<SegmentRef>, outs: seq<Segment>, lo: nat, hi: nat) {
    |refs| == |outs| && forall t :: 0 <= t < |outs| ==> OutputWritten(files, refs[t], outs[t], lo, hi)
  }

  lemma OutputStaysWritten(f: map<Name, File>, f': map<Name, File>, refs: seq<SegmentRef>, outs: seq<Segment>, lo: nat,
                           hi: nat, hi': nat)
    requires OutputsWritten(f, refs, outs, lo, hi) && OnlyNewUids(f', f, hi) && hi <= hi'
    ensures OutputsWritten(f', refs, outs, lo, hi')
  {
    forall t | 0 <= t < |outs| ensures OutputWritten(f', refs[t], outs[t], lo, hi') {
      assert OutputWritten(f, refs[t], outs[t], lo, hi);
    }
  }

  method WriteOutput(dir: Directory, w: Writer, base: nat) returns (r: Result<SegmentRef>)
    requires dir.Valid() && DocsAscend(w.docs)
    modifies dir
    ensures dir.Valid() && dir.manifest == old(dir.manifest) && dir.nextUid == old(dir.nextUid) + 1
    ensures Quiet(old(dir.past), dir.past, dir.manifest, old(dir.files), dir.files, old(dir.nextUid))
    ensures r.Ok? ==> OutputWritten(dir.files, r.value, OutputOf(w, base), old(dir.nextUid), dir.nextUid)
    ensures old(dir.Working()) ==> r.Ok? && dir.Working()
  {
    SerializeAscending(w);
    var written := WriteToDir(w, dir);
    if written.Err? {
      return Err(written.error);
    }
    r := Ok(written.value.(baseDocId := Some(base)));
  }

  method WriteOutputs(dir: Directory, writers: seq<Writer>, bases: seq<nat>) returns (r: Result<seq<SegmentRef>>)
    requires dir.Valid() && |writers| == |bases| && forall t :: 0 <= t < |writers| ==> DocsAscend(writers[t].docs)
    modifies dir
    ensures dir.Valid() && dir.manifest == old(dir.manifest) && dir.nextUid >= old(dir.nextUid)
    ensures Quiet(old(dir.past), dir.past, dir.manifest, old(dir.files), dir.files, old(dir.nextUid))
    ensures r.Ok? ==> OutputsWritten(dir.files, r.value, OutputsOf(writers, bases), old(dir.nextUid), dir.nextUid)
    ensures old(dir.Working()) ==> r.Ok? && dir.Working()
  {
    ghost var p0, f0, u0 := dir.past, dir.files, dir.nextUid;
    ghost var outs := OutputsOf(writers, bases);
    var refs := [];
    for t := 0 to |writers|
      invariant dir.Valid() && dir.manifest == old(dir.manifest) && dir.nextUid >= u0
      invariant Quiet(p0, dir.past, dir.manifest, f0, dir.files, u0)
      invariant OutputsWritten(dir.files, refs, outs[..t], u0, dir.nextUid)
      invariant old(dir.Working()) ==> dir.Working()
    {
      ghost var p1, f1, u1 := dir.past, dir.files, dir.nextUid;
      var written := WriteOutput(dir, writers[t], bases[t]);
      QuietTrans(p0, p1, dir.past, dir.manifest, f0, f1, dir.files, u0, u1);
      if written.Err? {
        return Err(written.error);
      }
      OutputStaysWritten(f1, dir.files, refs, outs[..t], u0, u1, dir.nextUid);
      refs := refs + [written.value];
      assert outs[..t + 1] == outs[..t] + [outs[t]];
    }
    assert outs[..|writers|] == outs;
    r := Ok(refs);
  }

  // ---------------------------------------------------------------- opening the result

  // What the first `start` segments of a manifest are on their own, with the
  // bases it puts them at.
  function PrefixOf(st: State, start: nat): State
    requires st.manifest.Some? && start <= |st.manifest.value.segments|
  {
    var refs := st.manifest.value.segments;
    State(st.files, Some(st.manifest.value.(segments := Pinned(refs[..start], BasesOf(refs)), deletesFile := None)))
  }

  // `s2` is `prefix` with everything live in `s` from segment `start` on above
  // it, numbered from `limit`.
  ghost predicate IsCompactedAfter(lx: Lexer, s: Snapshot, start: nat, batch: nat, prefix: seq<Segment>, limit: nat,
                                   s2: Snapshot)
    requires start <= |s.segs|
  {
    && |prefix| <= |s2.segs| && s2.segs[..|prefix|] == prefix && s2.deleted == {} && s2.overlay == EmptyOverlay
    && AreOutputs(s2.segs[|prefix|..], SuffixRows(lx, s, start), limit, StartsFor(lx, s, start, batch))
  }

  // What a published compaction of `s` makes of whatever index was on disk:
  // its prefix with the rewritten segments on top, exactly when they start no
  // earlier than the prefix ends and stay within the ceiling on ids. Nothing
  // opens if the prefix does not.
  ghost predicate PublishesCompaction(lx: Lexer, s: Snapshot, start: nat, batch: nat, before: State, after: State)
    requires start <= |s.segs|
  {
    && before.manifest.Some? && start <= |before.manifest.value.segments|
    && OpensCompactedAfter(lx, s, start, batch, BaseOf(PrefixOf(before, start)),
                           PrefixLimit(before.manifest.value, start), after)
    && (CountsRight(PrefixOf(before, start)) ==> CountsRight(after))
    && KeepsPrefix(before, after, start)
  }

  // The prefix is on disk as it was.
  ghost predicate KeepsPrefix(before: State, after: State, start: nat)
    requires before.manifest.Some? && start <= |before.manifest.value.segments|
  {
    && after.manifest.Some? && start <= |after.manifest.value.segments|
    && BaseOf(PrefixOf(after, start)) == BaseOf(PrefixOf(before, start))
    && (CountsRight(PrefixOf(after, start)) <==> CountsRight(PrefixOf(before, start)))
    && PrefixLimit(after.manifest.value, start) == PrefixLimit(before.manifest.value, start)
  }

  ghost predicate OpensCompactedAfter(lx: Lexer, s: Snapshot, start: nat, batch: nat, prefix: Result<seq<Segment>>,
                                      limit: nat, st: State)
    requires start <= |s.segs|
  {
    if prefix.Err? then BaseOf(st) == prefix
    else if FitsAbove(lx, s, start, prefix.value, limit) then
      Load(st).Ok? && IsCompactedAfter(lx, s, start, batch, prefix.value, limit, Load(st).value)
    else BaseOf(st) == Err(CorruptIndex)
  }

  predicate FitsAbove(lx: Lexer, s: Snapshot, start: nat, prefix: seq<Segment>, limit: nat)
    requires start <= |s.segs|
  {
    SuffixRows(lx, s, start) == [] || (Limit(prefix) <= limit && FitsAfter(lx, s, start, limit))
  }

  // Over a base that opens, with its document counts recorded: the first
  // segments of that base with the rewritten ones on top, exactly when the ids
  // stay within the ceiling; past it, opening fails.
  ghost predicate OpensCompactedOnto(lx: Lexer, s: Snapshot, base: seq<Segment>, start: nat, batch: nat, st: State)
    requires start <= |s.segs| && start <= |base|
  {
    if FitsAfter(lx, s, start, Limit(base[..start]))
    then Load(st).Ok? && IsCompactedOnto(lx, s, base, start, batch, Load(st).value) && Synced(st, Load(st).value)
    else BaseOf(st) == Err(CorruptIndex)
  }

  ghost predicate OpensCompacted(lx: Lexer, s: Snapshot, start: nat, batch: nat, st: State)
    requires start <= |s.segs|
  {
    OpensCompactedOnto(lx, s, s.segs, start, batch, st)
  }

  // The prefix of a base that opens, with its counts recorded.
  lemma PrefixOpens(st: State, start: nat)
    requires BaseOf(st).Ok? && CountsRight(st) && start <= |st.manifest.value.segments|
    ensures start <= |BaseOf(st).value| == |st.manifest.value.segments|
    ensures BaseOf(PrefixOf(st, start)) == Ok(BaseOf(st).value[..start]) && CountsRight(PrefixOf(st, start))
    ensures PrefixLimit(st.manifest.value, start) == Limit(BaseOf(st).value[..start]) <= MAX_TOTAL_DOCS
  {
    var refs, base := st.manifest.value.segments, BaseOf(st).value;
    OpenSegmentsShape(st.files, refs);
    BasesAgree(st.files, refs, base);
    PinnedOpens(st.files, refs[..start], BasesOf(refs), base[..start]);
    PrefixLimitAgrees(st.manifest.value, base, start);
  }

  lemma PrefixLimitAgrees(m: Manifest, base: seq<Segment>, start: nat)
    requires start <= |base| == |m.segments|
    requires forall k :: 0 <= k < |base| ==> m.segments[k].docCount == |base[k].docs|
    requires forall k :: 0 <= k < |base| ==> BasesOf(m.segments)[k] == base[k].base && base[k].End() <= MAX_TOTAL_DOCS
    ensures PrefixLimit(m, start) == Limit(base[..start]) <= MAX_TOTAL_DOCS
  {
  }

  lemma CompactsOnto(lx: Lexer, s: Snapshot, start: nat, batch: nat, before: State, after: State)
    requires start <= |s.segs| && PublishesCompaction(lx, s, start, batch, before, after)
    requires BaseOf(before).Ok? && CountsRight(before)
    ensures start <= |BaseOf(before).value| && OpensCompactedOnto(lx, s, BaseOf(before).value, start, batch, after)
  {
    PrefixOpens(before, start);
  }

  lemma OutputOpens(files: map<Name, File>, r: SegmentRef, out: Segment, lo: nat, hi: nat, prevEnd: nat)
    requires OutputWritten(files, r, out, lo, hi) && ProperIds(out)
    ensures OpenSegment(files, r, prevEnd)
         == if prevEnd <= out.base && out.End() <= MAX_TOTAL_DOCS then Ok(out) else Err(CorruptIndex)
  {
  }

  // Segments numbered from `limit` up to `end` on top of `prefix`.
  ghost function OpenedUpTo(prefix: seq<Segment>, limit: nat, outs: seq<Segment>, end: nat): Result<seq<Segment>> {
    if outs == [] || (Limit(prefix) <= limit && end <= MAX_TOTAL_DOCS) then Ok(prefix + outs) else Err(CorruptIndex)
  }

  // Segments follow one another without gaps from `limit` on.
  ghost predicate Chained(limit: nat, outs: seq<Segment>) {
    Linked(limit, outs) && forall t :: 0 <= t < |outs| ==> ProperIds(outs[t])
  }

  ghost predicate Linked(limit: nat, outs: seq<Segment>) {
    forall t {:trigger EndBefore(limit, outs, t)} :: 0 <= t < |outs| ==> outs[t].base == EndBefore(limit, outs, t)
  }

  function EndBefore(limit: nat, outs: seq<Segment>, t: nat): nat
    requires t <= |outs|
  {
    if t == 0 then limit else outs[t - 1].End()
  }

  ghost predicate ProperIds(seg: Segment) { forall i :: 0 <= i < |seg.docs| ==> seg.docs[i].id == seg.base + i }

  lemma OutputChained(outs: seq<Segment>, rows: seq<Row>, limit: nat, starts: seq<nat>, t: nat)
    requires AreOutputs(outs, rows, limit, starts) && Tiles(starts, |rows|) && t < |outs|
    ensures outs[t].base == EndBefore(limit, outs, t) && ProperIds(outs[t])
  {
    assert IsOutput(outs[t], rows, limit, starts[t], EndOf(starts, t, |rows|));
    if t > 0 {
      assert IsOutput(outs[t - 1], rows, limit, starts[t - 1], starts[t]);
    }
  }

  lemma OutputsChained(outs: seq<Segment>, rows: seq<Row>, limit: nat, starts: seq<nat>)
    requires AreOutputs(outs, rows, limit, starts) && Tiles(starts, |rows|)
    ensures Chained(limit, outs) && EndBefore(limit, outs, |outs|) == limit + |rows|
  {
    forall t | 0 <= t < |outs| ensures outs[t].base == EndBefore(limit, outs, t) && ProperIds(outs[t]) {
      OutputChained(outs, rows, limit, starts, t);
    }
    if |outs| > 0 {
      assert IsOutput(outs[|outs| - 1], rows, limit, starts[|outs| - 1], |rows|);
    }
  }

  lemma LimitOfChain(prefix: seq<Segment>, limit: nat, outs: seq<Segment>, t: nat)
    requires 0 < t <= |outs|
    ensures Limit(prefix + outs[..t]) == EndBefore(limit, outs, t)
  {
    assert (prefix + outs[..t])[|prefix| + t - 1] == outs[t - 1];
  }

  lemma TakeOneMore<T>(a: seq<T>, b: seq<T>, t: nat)
    requires t < |b|
    ensures a + b[..t + 1] == (a + b[..t]) + [b[t]]
  {
  }

  lemma OutputsOpen(files: map<Name, File>, refs0: seq<SegmentRef>, prefix: seq<Segment>, limit: nat,
                    refs: seq<SegmentRef>, outs: seq<Segment>, lo: nat, hi: nat)
    requires OpenSegments(files, refs0) == Ok(prefix)
    requires Chained(limit, outs) && OutputsWritten(files, refs, outs, lo, hi)
    ensures OpenSegments(files, refs0 + refs) == OpenedUpTo(prefix, limit, outs, EndBefore(limit, outs, |outs|))
  {
    assert refs0 + refs[..0] == refs0 && prefix + outs[..0] == prefix;
    for t := 0 to |outs|
      invariant OpenSegments(files, refs0 + refs[..t])
                  == OpenedUpTo(prefix, limit, outs[..t], EndBefore(limit, outs, t))
    {
      assert OutputWritten(files, refs[t], outs[t], lo, hi);
      NextOutputOpens(files, refs0 + refs[..t], prefix, limit, refs[t], outs, t, lo, hi);
      TakeOneMore(refs0, refs, t);
    }
    assert refs[..|outs|] == refs && outs[..|outs|] == outs;
  }

  lemma NextOutputOpens(files: map<Name, File>, refs: seq<SegmentRef>, prefix: seq<Segment>, limit: nat,
                        last: SegmentRef, outs: seq<Segment>, t: nat, lo: nat, hi: nat)
    requires t < |outs| && outs[t].base == EndBefore(limit, outs, t) && ProperIds(outs[t])
    requires OpenSegments(files, refs) == OpenedUpTo(prefix, limit, outs[..t], EndBefore(limit, outs, t))
    requires OutputWritten(files, last, outs[t], lo, hi)
    ensures OpenSegments(files, refs + [last])
              == OpenedUpTo(prefix, limit, outs[..t + 1], EndBefore(limit, outs, t + 1))
  {
    OpenOneMore(files, refs, last);
    TakeOneMore(prefix, outs, t);
    if t == 0 {
      assert prefix + outs[..0] == prefix;
      OutputOpens(files, last, outs[t], lo, hi, Limit(prefix));
    } else {
      LimitOfChain(prefix, limit, outs, t);
      OutputOpens(files, last, outs[t], lo, hi, outs[t].base);
    }
  }

  lemma AllOutputsOpen(files: map<Name, File>, refs0: seq<SegmentRef>, prefix: seq<Segment>, limit: nat,
                       refs: seq<SegmentRef>, outs: seq<Segment>, rows: seq<Row>, batch: nat, lo: nat, hi: nat)
    requires OpenSegments(files, refs0) == Ok(prefix)
    requires AreOutputs(outs, rows, limit, Pack(RowSizes(rows), batch).starts)
    requires OutputsWritten(files, refs, outs, lo, hi)
    ensures OpenSegments(files, refs0 + refs) == OpenedUpTo(prefix, limit, outs, limit + |rows|)
    ensures outs == [] <==> rows == []
  {
    PackTiles(RowSizes(rows), batch);
    OutputsChained(outs, rows, limit, Pack(RowSizes(rows), batch).starts);
    OutputsOpen(files, refs0, prefix, limit, refs, outs, lo, hi);
  }

  // What opening makes of the new manifest, whatever index it replaces.
  lemma CompactedOpens(lx: Lexer, s: Snapshot, start: nat, batch: nat, f0: map<Name, File>, files: map<Name, File>,
                       m: Manifest, outRefs: seq<SegmentRef>, outs: seq<Segment>, m2: Manifest, uid: nat, hi: nat)
    requires start <= |s.segs| && start <= |m.segments|
    requires OnlyNewUids(files, f0, uid) && forall n: Name :: n in Named(m) ==> n.uid < uid
    requires m2.segments == Pinned(m.segments[..start], BasesOf(m.segments)) + outRefs && m2.deletesFile == None
    requires AreOutputs(outs, SuffixRows(lx, s, start), PrefixLimit(m, start), StartsFor(lx, s, start, batch))
    requires OutputsWritten(files, outRefs, outs, uid, hi)
    ensures PublishesCompaction(lx, s, start, batch, State(f0, Some(m)), State(files, Some(m2)))
  {
    var pinned := Pinned(m.segments[..start], BasesOf(m.segments));
    PrefixKept(f0, files, m, m2, outRefs, start, uid);
    SamePrefix(f0, files, m, start, uid);
    if OpenSegments(files, pinned).Ok? {
      var prefix := OpenSegments(files, pinned).value;
      AllOutputsOpen(files, pinned, prefix, PrefixLimit(m, start), outRefs, outs, SuffixRows(lx, s, start), batch, uid,
                     hi);
      FittedLoads(lx, s, start, batch, files, prefix, PrefixLimit(m, start), outs, m2);
      FittedCounts(files, pinned, prefix, outRefs, outs, m2, uid, hi);
    } else {
      StillFails(files, pinned, outRefs);
    }
  }

  // Pinned references have the bases they were pinned to, whatever follows.
  lemma {:induction false} BasesOfPinned(refs: seq<SegmentRef>, bases: seq<nat>, more: seq<SegmentRef>)
    requires |refs| <= |bases|
    ensures |BasesOf(Pinned(refs, bases) + more)| >= |refs|
    ensures BasesOf(Pinned(refs, bases) + more)[..|refs|] == bases[..|refs|]
    decreases |more|
  {
    var all := Pinned(refs, bases) + more;
    if |more| > 0 {
      BasesOfPinned(refs, bases, more[..|more| - 1]);
      assert all[..|all| - 1] == Pinned(refs, bases) + more[..|more| - 1];
    } else {
      assert all == Pinned(refs, bases);
      PinnedBases(refs, bases);
    }
  }

  lemma {:induction false} PinnedBases(refs: seq<SegmentRef>, bases: seq<nat>)
    requires |refs| <= |bases|
    ensures BasesOf(Pinned(refs, bases)) == bases[..|refs|]
  {
    if |refs| > 0 {
      var n := |refs| - 1;
      PinnedBases(refs[..n], bases);
      assert Pinned(refs, bases)[..n] == Pinned(refs[..n], bases);
    }
  }

  lemma PrefixKept(f0: map<Name, File>, files: map<Name, File>, m: Manifest, m2: Manifest, more: seq<SegmentRef>,
                   start: nat, uid: nat)
    requires start <= |m.segments| && OnlyNewUids(files, f0, uid) && forall n: Name :: n in Named(m) ==> n.uid < uid
    requires m2.segments == Pinned(m.segments[..start], BasesOf(m.segments)) + more
    ensures KeepsPrefix(State(f0, Some(m)), State(files, Some(m2)), start)
  {
    var refs, bases := m.segments[..start], BasesOf(m.segments);
    var pinned := Pinned(refs, bases);
    SamePrefix(f0, files, m, start, uid);
    BasesOfPinned(refs, bases, more);
    assert m2.segments[..start] == pinned;
    assert forall k :: 0 <= k < start ==> BasesOf(m2.segments)[k] == BasesOf(m2.segments)[..start][k] == bases[k];
    assert Pinned(m2.segments[..start], BasesOf(m2.segments)) == pinned;
  }

  lemma SamePrefix(f0: map<Name, File>, files: map<Name, File>, m: Manifest, start: nat, uid: nat)
    requires start <= |m.segments| && OnlyNewUids(files, f0, uid) && forall n: Name :: n in Named(m) ==> n.uid < uid
    ensures var pinned := Pinned(m.segments[..start], BasesOf(m.segments));
            OpenSegments(files, pinned) == OpenSegments(f0, pinned)
  {
    var pinned := Pinned(m.segments[..start], BasesOf(m.segments));
    forall k | 0 <= k < start ensures AgreeOn(files, f0, {pinned[k].dict, pinned[k].post}) {
      assert m.segments[k].dict in Named(m) && m.segments[k].post in Named(m);
    }
    OpenSegmentsFrame(files, f0, pinned);
  }

  lemma {:induction false} StillFails(files: map<Name, File>, refs: seq<SegmentRef>, more: seq<SegmentRef>)
    requires OpenSegments(files, refs).Err?
    ensures OpenSegments(files, refs + more) == OpenSegments(files, refs)
    decreases |more|
  {
    if |more| == 0 {
      assert refs + more == refs;
    } else {
      var n := |more| - 1;
      StillFails(files, refs, more[..n]);
      OpenOneMore(files, refs + more[..n], more[n]);
      assert refs + more == (refs + more[..n]) + [more[n]];
    }
  }

  lemma FittedLoads(lx: Lexer, s: Snapshot, start: nat, batch: nat, files: map<Name, File>, prefix: seq<Segment>,
                    limit: nat, outs: seq<Segment>, m2: Manifest)
    requires start <= |s.segs| && m2.deletesFile == None
    requires AreOutputs(outs, SuffixRows(lx, s, start), limit, StartsFor(lx, s, start, batch))
    requires outs == [] <==> SuffixRows(lx, s, start) == []
    requires OpenSegments(files, m2.segments)
               == OpenedUpTo(prefix, limit, outs, limit + |SuffixRows(lx, s, start)|)
    ensures OpensCompactedAfter(lx, s, start, batch, Ok(prefix), limit, State(files, Some(m2)))
  {
    if FitsAbove(lx, s, start, prefix, limit) {
      var s2 := Snapshot(prefix + outs, {}, EmptyOverlay);
      assert Load(State(files, Some(m2))) == Ok(s2);
      assert s2.segs[..|prefix|] == prefix && s2.segs[|prefix|..] == outs;
    }
  }

  lemma FittedCounts(files: map<Name, File>, refs0: seq<SegmentRef>, prefix: seq<Segment>, outRefs: seq<SegmentRef>,
                     outs: seq<Segment>, m2: Manifest, uid: nat, hi: nat)
    requires m2.segments == refs0 + outRefs && OpenSegments(files, refs0) == Ok(prefix)
    requires OpenSegments(files, m2.segments).Ok? ==> OpenSegments(files, m2.segments) == Ok(prefix + outs)
    requires OutputsWritten(files, outRefs, outs, uid, hi)
    ensures (forall k :: 0 <= k < |prefix| && k < |refs0| ==> refs0[k].docCount == |prefix[k].docs|)
            ==> CountsRight(State(files, Some(m2)))
  {
    OpenSegmentsShape(files, refs0);
    OutputCounts(files, outRefs, outs, uid, hi);
    if forall k :: 0 <= k < |prefix| ==> refs0[k].docCount == |prefix[k].docs| {
      CountsAppend(refs0, prefix, outRefs, outs);
    }
  }

  lemma OutputCounts(files: map<Name, File>, outRefs: seq<SegmentRef>, outs: seq<Segment>, uid: nat, hi: nat)
    requires OutputsWritten(files, outRefs, outs, uid, hi)
    ensures |outRefs| == |outs| && forall k :: 0 <= k < |outs| ==> outRefs[k].docCount == |outs[k].docs|
  {
  }

  lemma CountsAppend(refs: seq<SegmentRef>, segs: seq<Segment>, refs2: seq<SegmentRef>, segs2: seq<Segment>)
    requires |refs| == |segs| && forall k :: 0 <= k < |segs| ==> refs[k].docCount == |segs[k].docs|
    requires |refs2| == |segs2| && forall k :: 0 <= k < |segs2| ==> refs2[k].docCount == |segs2[k].docs|
    ensures forall k :: 0 <= k < |segs + segs2| ==> (refs + refs2)[k].docCount == |(segs + segs2)[k].docs|
  {
  }

  // ---------------------------------------------------------------- the operation

  predicate CompactGuard(m: Manifest, s: Snapshot, start: nat) {
    start <= |m.segments| && BasesMatch(s, BasesOf(m.segments))
  }

  // Over a base that opens with its document counts recorded the guard lets a
  // snapshot through exactly when the segments start where those of the base
  // do; how many documents they hold is not compared.
  lemma CompactGuardExactly(st: State, s: Snapshot, start: nat)
    requires st.manifest.Some? && BaseOf(st).Ok? && CountsRight(st)
    ensures CompactGuard(st.manifest.value, s, start) <==>
              var base := BaseOf(st).value;
              && start <= |base| && |s.segs| == |base|
              && forall k :: 0 <= k < |base| ==> s.segs[k].base == base[k].base
  {
    OpenSegmentsShape(st.files, st.manifest.value.segments);
    BasesAgree(st.files, st.manifest.value.segments, BaseOf(st).value);
  }

  lemma SyncedPassesGuard(st: State, s: Snapshot)
    requires Synced(st, s)
    ensures |s.segs| == |st.manifest.value.segments| && BasesMatch(s, BasesOf(st.manifest.value.segments))
    ensures forall k :: 0 <= k < |s.segs| ==> s.segs[k].End() <= MAX_TOTAL_DOCS
  {
    OpenSegmentsShape(st.files, st.manifest.value.segments);
    BasesAgree(st.files, st.manifest.value.segments, s.segs);
  }

  // compact.rs:177-182
  function PrefixLimit(m: Manifest, start: nat): nat
    requires start <= |m.segments|
  {
    if start == 0 then 0 else Min(BasesOf(m.segments)[start - 1] + m.segments[start - 1].docCount, U32_MAX)
  }

  // A compaction starts a fresh manifest: no delete-set, generation zero. It
  // claims no commit the index did not already cover.
  ghost predicate Rewritten(m: Manifest, m2: Manifest) {
    m2.deletesFile == None && m2.baseCommit == m.baseCommit && m2.overlayGen == 0
  }

  // The 32-bit ids suffice for everything rewritten.
  predicate IdsSuffice(lx: Lexer, s: Snapshot, m: Manifest, start: nat)
    requires start <= |s.segs| && start <= |m.segments|
  {
    PrefixLimit(m, start) + |SuffixRows(lx, s, start)| <= U32_MAX
  }

  method WriteCompacted(lx: Lexer, dir: Directory, s: Snapshot, m: Manifest, plan: Plan) returns (r: Result<Manifest>)
    requires dir.Valid() && LayersWF(lx, s) && dir.manifest == Some(m) && CompactGuard(m, s, plan.suffixStart)
    modifies dir
    ensures dir.Valid() && dir.manifest == old(dir.manifest)
    ensures Quiet(old(dir.past), dir.past, dir.manifest, old(dir.files), dir.files, old(dir.nextUid))
    ensures r.Ok? ==> Rewritten(m, r.value)
    ensures r.Ok? ==> forall n: Name :: n in Named(r.value) ==> n.uid < dir.nextUid && !n.TmpFile?
    ensures r.Ok? ==> PublishesCompaction(lx, s, plan.suffixStart, Max(plan.batchSizeBytes, 1),
                                          old(dir.Now()), State(dir.files, Some(r.value)))
    ensures old(dir.Working()) && IdsSuffice(lx, s, m, plan.suffixStart) ==> r.Ok? && dir.Working()
  {
    ghost var f0, u0 := dir.files, dir.nextUid;
    var start := plan.suffixStart;
    var bases := ManifestSegmentBases(m.segments);
    var limit := PrefixLimit(m, start);
    var collected := CollectOutputs(lx, s, start, limit, plan.batchSizeBytes);
    if collected.Err? {
      return Err(collected.error);
    }
    var (writers, writerBases) := collected.value;
    var written := WriteOutputs(dir, writers, writerBases);
    if written.Err? {
      return Err(written.error);
    }
    r := Ok(Manifest(Pinned(m.segments[..start], bases) + written.value, None, m.baseCommit, 0));
    NamedAfter(m, start, dir.files, written.value, OutputsOf(writers, writerBases), r.value, u0, dir.nextUid);
    CompactedResult(lx, s, start, Max(plan.batchSizeBytes, 1), f0, dir.files, m, written.value, writers, writerBases,
                    r.value, u0, dir.nextUid);
  }

  lemma CompactedResult(lx: Lexer, s: Snapshot, start: nat, batch: nat, f0: map<Name, File>, files: map<Name, File>,
                        m: Manifest, outRefs: seq<SegmentRef>, writers: seq<Writer>, bases: seq<nat>, m2: Manifest,
                        lo: nat, hi: nat)
    requires CompactGuard(m, s, start) && |writers| == |bases|
    requires Finished(lx, s, start, writers, bases, PrefixLimit(m, start), batch)
    requires OnlyNewUids(files, f0, lo) && forall n: Name :: n in Named(m) ==> n.uid < lo
    requires m2.segments == Pinned(m.segments[..start], BasesOf(m.segments)) + outRefs && m2.deletesFile == None
    requires OutputsWritten(files, outRefs, OutputsOf(writers, bases), lo, hi)
    ensures PublishesCompaction(lx, s, start, batch, State(f0, Some(m)), State(files, Some(m2)))
  {
    CompactedOpens(lx, s, start, batch, f0, files, m, outRefs, OutputsOf(writers, bases), m2, lo, hi);
  }

  lemma NamedAfter(m: Manifest, start: nat, files: map<Name, File>, outRefs: seq<SegmentRef>, outs: seq<Segment>,
                   m2: Manifest, lo: nat, hi: nat)
    requires start <= |m.segments| && lo <= hi && OutputsWritten(files, outRefs, outs, lo, hi)
    requires forall n: Name :: n in Named(m) ==> n.uid < lo && !n.TmpFile?
    requires m2.segments == Pinned(m.segments[..start], BasesOf(m.segments)) + outRefs && m2.deletesFile == None
    ensures forall n: Name :: n in Named(m2) ==> n.uid < hi && !n.TmpFile?
  {
    forall n: Name | n in Named(m2) ensures n.uid < hi && !n.TmpFile? {
      var k :| 0 <= k < |m2.segments| && (n == m2.segments[k].dict || n == m2.segments[k].post);
      if k < start {
        assert m2.segments[k].dict == m.segments[k].dict && m2.segments[k].post == m.segments[k].post;
        assert n in Named(m);
      } else {
        assert OutputWritten(files, outRefs[k - start], outs[k - start], lo, hi);
      }
    }
  }

  method CompactIndex(lx: Lexer, dir: Directory, s: Snapshot, plan: Plan) returns (r: Result<Snapshot>, ghost cut: nat)
    requires dir.Valid() && LayersWF(lx, s)
    modifies dir
    // A crash at any point leaves the old index or the new one.
    ensures dir.Valid() && CrashSafe(old(dir.past), dir.past, cut, Load(old(dir.Now())), Load(dir.Now()))
    // The guard refuses before anything is written; it never refuses a
    // snapshot in step with the disk and a plan within it.
    ensures old(dir.manifest).None? || !CompactGuard(old(dir.manifest).value, s, plan.suffixStart) ==>
              r.Err? && dir.past == old(dir.past)
    ensures Synced(old(dir.Now()), s) && plan.suffixStart <= |s.segs| ==>
              CompactGuard(old(dir.manifest).value, s, plan.suffixStart)
    // Not published: nothing changed for anyone opening the index.
    ensures cut == |dir.past| ==> r.Err? && SameIndex(old(dir.Now()), dir.Now())
    // Published, in step with the disk or not, and whether or not the index on
    // disk opened: the directory opens as the prefix it had with the rewritten
    // segments on top, exactly when these follow it and stay within the ceiling
    // on ids.
    ensures cut < |dir.past| ==> r == Load(dir.Now()) || r == Err(IoFailed)
    ensures cut < |dir.past| ==> old(dir.manifest).Some? && CompactGuard(old(dir.manifest).value, s, plan.suffixStart)
    ensures cut < |dir.past| ==> PublishesCompaction(lx, s, plan.suffixStart, Max(plan.batchSizeBytes, 1),
                                                     old(dir.Now()), dir.Now())
    ensures cut < |dir.past| && BaseOf(old(dir.Now())).Ok? && CountsRight(old(dir.Now())) ==>
              && plan.suffixStart <= |BaseOf(old(dir.Now())).value|
              && OpensCompactedOnto(lx, s, BaseOf(old(dir.Now())).value, plan.suffixStart,
                                    Max(plan.batchSizeBytes, 1), dir.Now())
    ensures cut < |dir.past| && Synced(old(dir.Now()), s) ==>
              OpensCompacted(lx, s, plan.suffixStart, Max(plan.batchSizeBytes, 1), dir.Now())
    ensures cut < |dir.past| ==> dir.manifest.Some? && Rewritten(old(dir.manifest).value, dir.manifest.value)
    // Past the guard, only a failing system call or running out of 32-bit ids
    // can keep it from publishing.
    ensures old(dir.Working()) && old(dir.manifest).Some?
            && CompactGuard(old(dir.manifest).value, s, plan.suffixStart)
            && IdsSuffice(lx, s, old(dir.manifest).value, plan.suffixStart) ==>
              cut < |dir.past| && r == Load(dir.Now()) && dir.Working()
  {
    if dir.manifest.None? {
      return Err(IoFailed), |dir.past|;
    }
    var m := dir.manifest.value;
    if Synced(dir.Now(), s) {
      SyncedPassesGuard(dir.Now(), s);
    }
    if !CompactGuard(m, s, plan.suffixStart) {
      return Err(CorruptIndex), |dir.past|;
    }
    r, cut := CompactGuarded(lx, dir, s, m, plan);
    if cut < |dir.past| && BaseOf(old(dir.Now())).Ok? && CountsRight(old(dir.Now())) {
      CompactsOnto(lx, s, plan.suffixStart, Max(plan.batchSizeBytes, 1), old(dir.Now()), dir.Now());
    }
  }

  method CompactGuarded(lx: Lexer, dir: Directory, s: Snapshot, m: Manifest, plan: Plan)
    returns (r: Result<Snapshot>, ghost cut: nat)
    requires dir.Valid() && LayersWF(lx, s) && dir.manifest == Some(m) && CompactGuard(m, s, plan.suffixStart)
    modifies dir
    ensures dir.Valid() && CrashSafe(old(dir.past), dir.past, cut, Load(old(dir.Now())), Load(dir.Now()))
    ensures cut == |dir.past| ==> r.Err? && SameIndex(old(dir.Now()), dir.Now())
    ensures cut < |dir.past| ==> r == Load(dir.Now()) || r == Err(IoFailed)
    ensures cut < |dir.past| ==> PublishesCompaction(lx, s, plan.suffixStart, Max(plan.batchSizeBytes, 1),
                                                     old(dir.Now()), dir.Now())
    ensures cut < |dir.past| ==> dir.manifest.Some? && Rewritten(m, dir.manifest.value)
    ensures old(dir.Working()) && IdsSuffice(lx, s, m, plan.suffixStart) ==>
              cut < |dir.past| && r == Load(dir.Now()) && dir.Working()
  {
    ghost var p0, st0, u0 := dir.past, dir.Now(), dir.nextUid;
    var written := WriteCompacted(lx, dir, s, m, plan);
    ghost var p1, st1 := dir.past, dir.Now();
    QuietLoad(p0, p1, st0, dir.files, u0);
    cut := |p1|;
    if written.Err? {
      return Err(written.error), cut;
    }
    r, cut := dir.Publish(written.value);
    CrashSafeAfterQuiet(p0, p1, dir.past, cut, st0, st1.files, u0, Load(dir.Now()));
    if cut < |dir.past| {
      PublishedFrame(lx, s, plan.suffixStart, Max(plan.batchSizeBytes, 1), st0, State(st1.files, Some(written.value)),
                     dir.Now());
    }
  }

  lemma PrefixFrame(a: State, b: State, start: nat)
    requires a.manifest.Some? && a.manifest == b.manifest && start <= |a.manifest.value.segments|
    requires AgreeOn(a.files, b.files, Named(a.manifest.value))
    ensures BaseOf(PrefixOf(a, start)) == BaseOf(PrefixOf(b, start))
    ensures CountsRight(PrefixOf(a, start)) <==> CountsRight(PrefixOf(b, start))
  {
    var m, m2 := a.manifest.value, PrefixOf(a, start).manifest.value;
    forall n | n in Named(m2) ensures n in Named(m) {
      var k :| 0 <= k < start && (n == m2.segments[k].dict || n == m2.segments[k].post);
      assert m2.segments[k].dict == m.segments[k].dict && m2.segments[k].post == m.segments[k].post;
    }
    BaseFrame(PrefixOf(a, start), PrefixOf(b, start));
  }

  lemma PublishedFrame(lx: Lexer, s: Snapshot, start: nat, batch: nat, before: State, a: State, b: State)
    requires start <= |s.segs| && PublishesCompaction(lx, s, start, batch, before, a) && a.manifest == b.manifest
    requires a.manifest.Some? ==> AgreeOn(a.files, b.files, Named(a.manifest.value))
    ensures PublishesCompaction(lx, s, start, batch, before, b)
  {
    LoadFrame(a, b);
    BaseFrame(a, b);
    PrefixFrame(a, b, start);
  }
}
