// Turning the overlay into a durable delta segment (delta_apply.rs).
module Flush {
  import opened Common
  import opened Snapshots
  import opened Overlays
  import opened Disk
  import opened Writers

  datatype FlushAnchor = AdvanceHead(head: Option<string>) | KeepHead

  // ---------------------------------------------------------------- specification

  function TotalDocs(refs: seq<SegmentRef>): nat {
    if |refs| == 0 then 0 else TotalDocs(refs[..|refs| - 1]) + refs[|refs| - 1].docCount
  }

  // The consistency guard (delta_apply.rs:49-61).
  predicate FlushGuard(m: Manifest, s: Snapshot) {
    |s.segs| == |m.segments| && DocCount(s.segs) == TotalDocs(m.segments)
  }

  function DeltaDocs(lx: Lexer, docs: seq<OverlayDoc>): (r: seq<Doc>)
    ensures |r| == |docs|
    ensures forall i :: 0 <= i < |r| ==>
              r[i] == Doc(docs[i].id, docs[i].path, lx.hash(docs[i].content), |docs[i].content|)
  {
    seq(|docs|,
        i requires 0 <= i < |docs| => Doc(docs[i].id, docs[i].path, lx.hash(docs[i].content), |docs[i].content|))
  }

  // The condition a caller can check before a flush: the overlay is numbered
  // without gaps and ends within the ceiling on document ids.
  ghost predicate Reopens(ov: Overlay) {
    ov.docs != [] ==> Consecutive(ov.docs) && ov.docs[0].id + |ov.docs| <= MAX_TOTAL_DOCS
  }

  // Whether that overlay can follow a given base, too.
  ghost predicate FitsOnto(ov: Overlay, base: seq<Segment>) {
    Reopens(ov) && (ov.docs != [] ==> Limit(base) <= ov.docs[0].id)
  }

  // `s2` is `base` with the overlay of `s` as one more segment, under the
  // delete-set of `s`.
  ghost predicate IsFlushedOnto(lx: Lexer, s: Snapshot, base: seq<Segment>, s2: Snapshot) {
    && s2.deleted == s.deleted && s2.overlay == EmptyOverlay
    && if s.overlay.docs == [] then s2.segs == base
       else |s2.segs| == |base| + 1 && s2.segs[..|base|] == base && IsDelta(lx, s.overlay, s2.segs[|base|])
  }

  // `s2` is `s` with its overlay turned into one more base segment.
  ghost predicate IsFlushed(lx: Lexer, s: Snapshot, s2: Snapshot) { IsFlushedOnto(lx, s, s.segs, s2) }

  ghost predicate IsDelta(lx: Lexer, ov: Overlay, seg: Segment) {
    && ov.docs != []
    && seg.base == ov.docs[0].id && seg.docs == DeltaDocs(lx, ov.docs)
    && seg.docBytes == Some(SumSizes(seg.docs))
    && (forall g :: g in seg.postings ==> Ascending(seg.postings[g]))
    && (forall g: Gram, x: nat :: Posted(seg.postings, g, x) <==> Holds(ov.docs, g, x))
  }

  // Main flush theorem: a flushed snapshot that reopens is well formed and has
  // the very same live rows, ids included. In particular the persisted
  // delete-set hides none of the newly written documents.
  lemma FlushKeepsRows(lx: Lexer, s: Snapshot, s2: Snapshot)
    requires SnapshotWF(lx, s) && IsFlushed(lx, s, s2) && Reopens(s.overlay)
    ensures SnapshotWF(lx, s2)
    ensures Rows(lx, s2) == Rows(lx, s) && View(lx, s2) == View(lx, s)
  {
    FlushedBase(lx, s, s2);
    FlushedRows(lx, s, s2);
  }

  lemma FlushedRows(lx: Lexer, s: Snapshot, s2: Snapshot)
    requires SnapshotWF(lx, s) && IsFlushed(lx, s, s2) && Reopens(s.overlay)
    ensures Rows(lx, s2) == Rows(lx, s)
  {
    FlushedRowsOnto(lx, s, s.segs, s2);
  }

  // Whatever the base: its documents, less those hidden by `s`, and then the
  // overlay of `s`.
  lemma FlushedRowsOnto(lx: Lexer, s: Snapshot, base: seq<Segment>, s2: Snapshot)
    requires SnapshotWF(lx, s) && IsFlushedOnto(lx, s, base, s2) && Reopens(s.overlay)
    ensures Rows(lx, s2) == Keep(AllRows(base), s.deleted) + OverlayRows(lx, s.overlay.docs)
  {
    assert OverlayRows(lx, s2.overlay.docs) == [];
    if s.overlay.docs == [] {
      assert OverlayRows(lx, s.overlay.docs) == [];
    } else {
      var seg := s2.segs[|base|];
      assert s2.segs[..|s2.segs| - 1] == base;
      DeltaOnTop(lx, s, base, seg);
      assert Keep(AllRows(s2.segs), s.deleted) + [] == Keep(AllRows(s2.segs), s.deleted);
    }
  }

  lemma DeltaOnTop(lx: Lexer, s: Snapshot, base: seq<Segment>, seg: Segment)
    requires SnapshotWF(lx, s) && IsDelta(lx, s.overlay, seg) && Reopens(s.overlay)
    ensures Keep(AllRows(base) + SegRows(seg), s.deleted)
         == Keep(AllRows(base), s.deleted) + OverlayRows(lx, s.overlay.docs)
  {
    DeltaRows(lx, s.overlay, seg);
    KeepAppend(AllRows(base), SegRows(seg), s.deleted);
    DeltaNotHidden(lx, s, seg);
  }

  lemma FlushedBase(lx: Lexer, s: Snapshot, s2: Snapshot)
    requires SnapshotWF(lx, s) && IsFlushed(lx, s, s2) && Reopens(s.overlay)
    ensures SegsWF(s2.segs) && forall x :: x in s2.deleted ==> BaseId(s2.segs, x)
  {
    LimitBounds(s.segs);
    if s.overlay.docs != [] {
      var seg := s2.segs[|s.segs|];
      DeltaRows(lx, s.overlay, seg);
      assert forall k :: 0 <= k < |s.segs| ==> s2.segs[k] == s.segs[k];
      assert Limit(s.segs) <= seg.base;
      forall x | x in s2.deleted ensures BaseId(s2.segs, x) {
        var k :| 0 <= k < |s.segs| && s.segs[k].base <= x < s.segs[k].End();
        assert s2.segs[k].base <= x < s2.segs[k].End();
      }
    }
  }

  // Over any well-formed base the result has well-formed layers.
  lemma FlushedLayers(lx: Lexer, s: Snapshot, base: seq<Segment>, s2: Snapshot)
    requires LayersWF(lx, s) && SegsWF(base) && FitsOnto(s.overlay, base) && IsFlushedOnto(lx, s, base, s2)
    ensures LayersWF(lx, s2)
  {
    LimitBounds(base);
    if s.overlay.docs != [] {
      DeltaRows(lx, s.overlay, s2.segs[|base|]);
      assert forall k :: 0 <= k < |base| ==> s2.segs[k] == base[k];
    }
  }

  // Overlay ids lie above every base id, so no hidden id names a new document.
  lemma DeltaNotHidden(lx: Lexer, s: Snapshot, seg: Segment)
    requires SnapshotWF(lx, s) && IsDelta(lx, s.overlay, seg)
    ensures Keep(SegRows(seg), s.deleted) == SegRows(seg)
  {
    LimitBounds(s.segs);
    forall r | r in SegRows(seg) ensures r.id !in s.deleted {
      var i :| 0 <= i < |seg.docs| && SegRows(seg)[i] == r;
      assert s.overlay.docs[i].id == r.id;
      assert !BaseId(s.segs, r.id);
    }
    KeepAll(SegRows(seg), s.deleted);
  }

  // Gram answers are the same, id for id.
  lemma FlushKeepsQueries(lx: Lexer, s: Snapshot, s2: Snapshot, g: Gram)
    requires SnapshotWF(lx, s) && IsFlushed(lx, s, s2)
    ensures Query(s2, g) == Query(s, g)
  {
    var ov := s.overlay;
    assert Elements(EmptyOverlay.Lookup(g)) == {};
    if ov.docs == [] {
      forall x: nat ensures x !in ov.Lookup(g) {
        assert Posted(ov.gramIndex, g, x) <==> Holds(ov.docs, g, x);
      }
      assert Elements(ov.Lookup(g)) == {};
    } else {
      var seg := s2.segs[|s.segs|];
      assert s2.segs[..|s2.segs| - 1] == s.segs;
      forall x: nat ensures x in seg.Lookup(g) <==> x in ov.Lookup(g) {
        assert Posted(seg.postings, g, x) <==> Posted(ov.gramIndex, g, x);
      }
      assert Elements(seg.Lookup(g)) == Elements(ov.Lookup(g));
    }
  }

  // The delta segment is well formed when ids are consecutive, and its rows
  // are the overlay's.
  lemma DeltaRows(lx: Lexer, ov: Overlay, seg: Segment)
    requires OverlayOk(lx, ov) && IsDelta(lx, ov, seg) && Consecutive(ov.docs)
    ensures SegWF(seg)
    ensures SegRows(seg) == OverlayRows(lx, ov.docs)
  {
    forall g, x | g in seg.postings && x in seg.postings[g] ensures seg.base <= x < seg.End() {
      assert Posted(seg.postings, g, x);
    }
    forall i | 0 <= i < |ov.docs| ensures SegRows(seg)[i] == OverlayRows(lx, ov.docs)[i] {
      DeltaGrams(lx, ov, seg, i);
    }
  }

  lemma DeltaGrams(lx: Lexer, ov: Overlay, seg: Segment, i: nat)
    requires OverlayOk(lx, ov) && IsDelta(lx, ov, seg) && i < |ov.docs|
    ensures seg.GramsOf(ov.docs[i].id) == lx.grams(ov.docs[i].content)
  {
    var d := ov.docs[i];
    forall g ensures g in seg.GramsOf(d.id) <==> g in d.grams {
      assert Posted(seg.postings, g, d.id) <==> Holds(ov.docs, g, d.id);
      if Holds(ov.docs, g, d.id) {
        var j :| 0 <= j < |ov.docs| && ov.docs[j].id == d.id && g in ov.docs[j].grams;
        assert j == i;
      }
    }
  }

  // ---------------------------------------------------------------- the operation

  // Fill the writer for the delta segment (delta_apply.rs:75-103). Grams are
  // derived again from the contents; repeats are dropped when it is written.
  method FillDelta(lx: Lexer, docs: seq<OverlayDoc>) returns (w: Writer)
    ensures w.docs == DeltaDocs(lx, docs)
    ensures forall g: Gram, x: nat :: (g, x) in w.pairs <==>
              exists i :: 0 <= i < |docs| && docs[i].id == x && g in lx.grams(docs[i].content)
  {
    w := EmptyWriter;
    for i := 0 to |docs|
      invariant w.docs == DeltaDocs(lx, docs)[..i]
      invariant forall g: Gram, x: nat :: (g, x) in w.pairs <==>
                  exists k :: 0 <= k < i && docs[k].id == x && g in lx.grams(docs[k].content)
    {
      var d := docs[i];
      w := w.AddDocument(d.id, d.path, lx.hash(d.content), |d.content|);
      assert w.docs[i] == DeltaDocs(lx, docs)[i];
      ghost var before := w.pairs;
      var todo := lx.grams(d.content);
      while todo != {}
        invariant todo <= lx.grams(d.content)
        invariant w.docs == DeltaDocs(lx, docs)[..i + 1]
        invariant forall g: Gram, x: nat :: (g, x) in w.pairs <==>
                    (g, x) in before || (x == d.id && g in lx.grams(d.content) - todo)
        decreases todo
      {
        var g :| g in todo;
        w := w.AddGramPosting(g, d.id);
        todo := todo - {g};
      }
      forall g: Gram, x: nat
        ensures (g, x) in w.pairs <==> exists k :: 0 <= k < i + 1 && docs[k].id == x && g in lx.grams(docs[k].content)
      {
        if (g, x) in w.pairs && !((g, x) in before) {
          assert docs[i].id == x && g in lx.grams(docs[i].content);
        }
      }
    }
  }

  lemma SumsAgree(refs: seq<SegmentRef>, segs: seq<Segment>)
    requires |refs| == |segs| && forall k :: 0 <= k < |refs| ==> refs[k].docCount == |segs[k].docs|
    ensures TotalDocs(refs) == DocCount(segs)
  {
    if |refs| != 0 {
      SumsAgree(refs[..|refs| - 1], segs[..|segs| - 1]);
    }
  }

  // The guard compares as many things as it says: over a base that opens with
  // its document counts recorded it lets a snapshot through exactly when both
  // have the same number of segments and, hidden ones included, of documents.
  lemma FlushGuardExactly(st: State, s: Snapshot)
    requires st.manifest.Some? && BaseOf(st).Ok? && CountsRight(st)
    ensures FlushGuard(st.manifest.value, s) <==>
              |s.segs| == |BaseOf(st).value| && DocCount(s.segs) == DocCount(BaseOf(st).value)
  {
    OpenSegmentsShape(st.files, st.manifest.value.segments);
    SumsAgree(st.manifest.value.segments, BaseOf(st).value);
  }

  // What opening gives after a flush of `s` over whatever base was on disk:
  // that base with the overlay of `s` on top exactly when the overlay can
  // follow it, and otherwise no base at all, so that opening fails.
  ghost predicate OpensFlushedOnto(lx: Lexer, s: Snapshot, base: Result<seq<Segment>>, st: State) {
    if base.Err? then BaseOf(st) == base
    else if FitsOnto(s.overlay, base.value) then Load(st).Ok? && IsFlushedOnto(lx, s, base.value, Load(st).value)
    else BaseOf(st) == Err(CorruptIndex)
  }

  // What a published flush of `s` makes of the index that was on disk.
  ghost predicate PublishesFlush(lx: Lexer, s: Snapshot, before: State, after: State) {
    && OpensFlushedOnto(lx, s, BaseOf(before), after)
    && (CountsRight(before) ==> CountsRight(after))
    && before.manifest.Some? && after.manifest.Some?
    && |after.manifest.value.segments| == |before.manifest.value.segments| + if s.overlay.docs == [] then 0 else 1
  }

  // For a snapshot in step with the disk: the flushed snapshot exactly when
  // its overlay is numbered without gaps, and nothing otherwise.
  ghost predicate OpensFlushed(lx: Lexer, s: Snapshot, st: State) {
    && (Reopens(s.overlay) ==> Load(st).Ok? && IsFlushed(lx, s, Load(st).value) && Synced(st, Load(st).value))
    && (!Reopens(s.overlay) ==> Load(st) == Err(CorruptIndex))
  }

  lemma InStepFits(lx: Lexer, s: Snapshot)
    requires OverlayWF(lx, s.overlay, Limit(s.segs))
    ensures FitsOnto(s.overlay, s.segs) <==> Reopens(s.overlay)
  {
  }

  // A handle in step flushes onto its own base.
  lemma InStepFlush(lx: Lexer, s: Snapshot, before: State, after: State)
    requires OverlayWF(lx, s.overlay, Limit(s.segs)) && Synced(before, s)
    requires PublishesFlush(lx, s, before, after)
    ensures OpensFlushed(lx, s, after)
  {
    InStepFits(lx, s);
  }

  lemma NamedGrows(m: Manifest, refs: seq<SegmentRef>, deletesFile: Option<Name>)
    requires |m.segments| <= |refs| <= |m.segments| + 1 && refs[..|m.segments|] == m.segments
    ensures forall n :: n in Named(m.(segments := refs, deletesFile := deletesFile)) ==>
              || n in Named(m)
              || (|refs| > |m.segments| && (n == refs[|m.segments|].dict || n == refs[|m.segments|].post))
              || deletesFile == Some(n)
  {
    var m2 := m.(segments := refs, deletesFile := deletesFile);
    forall n | n in Named(m2)
      ensures || n in Named(m)
              || (|refs| > |m.segments| && (n == refs[|m.segments|].dict || n == refs[|m.segments|].post))
              || deletesFile == Some(n)
    {
      if k :| 0 <= k < |refs| && (n == refs[k].dict || n == refs[k].post) {
        if k < |m.segments| {
          assert m.segments[k] == refs[k];
        }
      }
    }
  }

  // What opening makes of the new manifest, whatever base it extends.
  lemma OpenFlushed(lx: Lexer, s: Snapshot, f0: map<Name, File>, f1: map<Name, File>, m: Manifest, m2: Manifest,
                    uid: nat)
    requires OnlyNewUids(f1, f0, uid) && forall n: Name :: n in Named(m) ==> n.uid < uid
    requires OpenDeletes(f1, m2.deletesFile) == Ok(s.deleted)
    requires SegmentsExtend(lx, s.overlay, m, m2.segments, f1)
    ensures PublishesFlush(lx, s, State(f0, Some(m)), State(f1, Some(m2)))
  {
    var base := OpenSegments(f1, m.segments);
    OldSegmentsOpen(f0, f1, m, uid);
    if s.overlay.docs != [] {
      var last := m2.segments[|m.segments|];
      assert m2.segments == m.segments + [last];
      OpenWithDelta(lx, s, f1, m.segments, last, m2);
      if base.Ok? {
        OpenSegmentsShape(f1, m.segments);
        OpenDelta(lx, s.overlay, f1, last, Limit(base.value));
        if CountsRight(State(f0, Some(m))) {
          CountsStayRight(f1, m.segments, last, m2);
        }
      }
    }
  }

  lemma OpenWithDelta(lx: Lexer, s: Snapshot, files: map<Name, File>, refs: seq<SegmentRef>, last: SegmentRef,
                      m2: Manifest)
    requires m2.segments == refs + [last] && DeltaWritten(lx, s.overlay, files, last)
    requires OpenDeletes(files, m2.deletesFile) == Ok(s.deleted)
    ensures OpensFlushedOnto(lx, s, OpenSegments(files, refs), State(files, Some(m2)))
  {
    OpenOneMore(files, refs, last);
    if OpenSegments(files, refs).Ok? {
      OpenDelta(lx, s.overlay, files, last, Limit(OpenSegments(files, refs).value));
    }
  }

  lemma CountsStayRight(files: map<Name, File>, refs: seq<SegmentRef>, last: SegmentRef, m2: Manifest)
    requires m2.segments == refs + [last] && OpenSegments(files, refs).Ok?
    requires |OpenSegments(files, refs).value| == |refs|
    requires forall k :: 0 <= k < |refs| ==> refs[k].docCount == |OpenSegments(files, refs).value[k].docs|
    requires var seg := OpenSegment(files, last, Limit(OpenSegments(files, refs).value));
             seg.Ok? ==> last.docCount == |seg.value.docs|
    ensures CountsRight(State(files, Some(m2)))
  {
    OpenOneMore(files, refs, last);
  }

  ghost predicate SegmentsExtend(lx: Lexer, ov: Overlay, m: Manifest, refs: seq<SegmentRef>, files: map<Name, File>) {
    if ov.docs == [] then refs == m.segments
    else
      && |refs| == |m.segments| + 1 && refs[..|m.segments|] == m.segments
      && DeltaWritten(lx, ov, files, refs[|m.segments|])
  }

  ghost predicate DeltaWritten(lx: Lexer, ov: Overlay, files: map<Name, File>, r: SegmentRef) {
    && ov.docs != []
    && r.baseDocId == Some(ov.docs[0].id) && r.docCount == |ov.docs|
    && r.docBytes == Some(SumSizes(DeltaDocs(lx, ov.docs)))
    && r.dict in files && files[r.dict] == Dict(DeltaDocs(lx, ov.docs))
    && r.post in files && files[r.post].Post?
    && (forall g :: g in files[r.post].postings ==> Ascending(files[r.post].postings[g]))
    && (forall g: Gram, x: nat :: Posted(files[r.post].postings, g, x) <==> Holds(ov.docs, g, x))
  }

  // A written delta opens after `prevEnd` exactly when its overlay is numbered
  // without gaps and starts no earlier.
  lemma OpenDelta(lx: Lexer, ov: Overlay, files: map<Name, File>, last: SegmentRef, prevEnd: nat)
    requires DeltaWritten(lx, ov, files, last)
    ensures var seg := OpenSegment(files, last, prevEnd);
            if Reopens(ov) && prevEnd <= ov.docs[0].id
            then seg.Ok? && IsDelta(lx, ov, seg.value) && last.docCount == |seg.value.docs|
            else seg == Err(CorruptIndex)
  {
    var written := DeltaDocs(lx, ov.docs);
    if !Consecutive(ov.docs) {
      var i :| 0 <= i < |ov.docs| && ov.docs[i].id != ov.docs[0].id + i;
      assert written[i].id != ov.docs[0].id + i;
    }
  }

  // The delta segment (delta_apply.rs:75-104).
  method WriteDelta(lx: Lexer, dir: Directory, ov: Overlay) returns (r: Result<SegmentRef>)
    requires dir.Valid() && OverlayOk(lx, ov) && ov.docs != []
    modifies dir
    ensures dir.Valid() && dir.manifest == old(dir.manifest) && dir.nextUid == old(dir.nextUid) + 1
    ensures Quiet(old(dir.past), dir.past, dir.manifest, old(dir.files), dir.files, old(dir.nextUid))
    ensures r.Ok? ==> DeltaWritten(lx, ov, dir.files, r.value)
    ensures old(dir.Working()) ==> r.Ok? && dir.Working()
    ensures r.Ok? ==> r.value.dict == DictFile(old(dir.nextUid)) && r.value.post == PostFile(old(dir.nextUid))
  {
    var w := FillDelta(lx, ov.docs);
    SerializeAscending(w);
    var written := WriteToDir(w, dir);
    if written.Err? {
      return Err(written.error);
    }
    PostingMapExact(w.pairs);
    forall g: Gram, x: nat ensures Posted(PostingMap(w.pairs), g, x) <==> Holds(ov.docs, g, x) {
      assert (g, x) in w.pairs <==>
               exists i :: 0 <= i < |ov.docs| && ov.docs[i].id == x && g in lx.grams(ov.docs[i].content);
    }
    r := Ok(written.value.(baseDocId := Some(ov.docs[0].id)));
  }

  // References to the old segments and, if the overlay holds anything, to the
  // delta segment just written under its own names.
  ghost predicate SegmentsFor(lx: Lexer, ov: Overlay, m: Manifest, refs: seq<SegmentRef>, files: map<Name, File>,
                              uid: nat)
  {
    && SegmentsExtend(lx, ov, m, refs, files)
    && (ov.docs != [] ==> refs[|m.segments|].dict == DictFile(uid) && refs[|m.segments|].post == PostFile(uid))
  }

  method WriteSegments(lx: Lexer, dir: Directory, ov: Overlay, m: Manifest) returns (r: Result<seq<SegmentRef>>)
    requires dir.Valid() && OverlayOk(lx, ov)
    modifies dir
    ensures dir.Valid() && dir.manifest == old(dir.manifest) && dir.nextUid >= old(dir.nextUid)
    ensures ov.docs != [] ==> dir.nextUid > old(dir.nextUid)
    ensures Quiet(old(dir.past), dir.past, dir.manifest, old(dir.files), dir.files, old(dir.nextUid))
    ensures r.Ok? ==> SegmentsFor(lx, ov, m, r.value, dir.files, old(dir.nextUid))
    ensures old(dir.Working()) ==> r.Ok? && dir.Working()
  {
    if |ov.docs| == 0 {
      return Ok(m.segments);
    }
    var delta := WriteDelta(lx, dir, ov);
    r := if delta.Err? then Err(delta.error) else Ok(m.segments + [delta.value]);
  }

  // The delete-set, unless it is empty (delta_apply.rs:109-115).
  method WriteDeleteSet(dir: Directory, deleted: set<nat>) returns (r: Result<Option<Name>>)
    requires dir.Valid()
    modifies dir
    ensures dir.Valid() && dir.manifest == old(dir.manifest) && dir.nextUid >= old(dir.nextUid)
    ensures Quiet(old(dir.past), dir.past, dir.manifest, old(dir.files), dir.files, old(dir.nextUid))
    ensures r.Ok? ==> OpenDeletes(dir.files, r.value) == Ok(deleted)
    ensures old(dir.Working()) ==> r.Ok? && dir.Working()
    ensures r.Ok? && r.value.Some? ==> r.value.value == DeletesFile(old(dir.nextUid)) && dir.nextUid > old(dir.nextUid)
  {
    if deleted == {} {
      return Ok(None);
    }
    var ok, name := dir.WriteDeletes(deleted);
    r := if ok then Ok(Some(name)) else Err(IoFailed);
  }

  // The files of a flush before its manifest: the delta segment and the
  // delete-set (delta_apply.rs:63-115).
  method WriteFlushFiles(lx: Lexer, dir: Directory, s: Snapshot, m: Manifest) returns (r: Result<Manifest>)
    requires dir.Valid() && OverlayWF(lx, s.overlay, Limit(s.segs)) && dir.manifest == Some(m)
    modifies dir
    ensures dir.Valid() && dir.manifest == old(dir.manifest)
    ensures Quiet(old(dir.past), dir.past, dir.manifest, old(dir.files), dir.files, old(dir.nextUid))
    ensures r.Ok? ==> forall n: Name :: n in Named(r.value) ==> n.uid < dir.nextUid && !n.TmpFile?
    ensures r.Ok? ==> PublishesFlush(lx, s, old(dir.Now()), State(dir.files, Some(r.value)))
    ensures old(dir.Working()) ==> r.Ok? && dir.Working()
  {
    ghost var p0, f0, u0 := dir.past, dir.files, dir.nextUid;
    var refs := WriteSegments(lx, dir, s.overlay, m);
    if refs.Err? {
      return Err(refs.error);
    }
    ghost var p1, f1, u1 := dir.past, dir.files, dir.nextUid;
    var deletesFile := WriteDeleteSet(dir, s.deleted);
    QuietTrans(p0, p1, dir.past, dir.manifest, f0, f1, dir.files, u0, u1);
    if deletesFile.Err? {
      return Err(deletesFile.error);
    }
    r := Ok(m.(segments := refs.value, deletesFile := deletesFile.value));
    FlushNames(lx, s.overlay, m, refs.value, f1, u0, u1, deletesFile.value, dir.nextUid);
    FlushFilesOpen(lx, s, f0, f1, dir.files, m, refs.value, deletesFile.value, u0, u1);
  }

  lemma FlushNames(lx: Lexer, ov: Overlay, m: Manifest, refs: seq<SegmentRef>, f1: map<Name, File>, u0: nat, u1: nat,
                   deletesFile: Option<Name>, u2: nat)
    requires forall n: Name :: n in Named(m) ==> n.uid < u0 && !n.TmpFile?
    requires SegmentsFor(lx, ov, m, refs, f1, u0) && u0 <= u1 <= u2 && (ov.docs != [] ==> u0 < u1)
    requires deletesFile.Some? ==> deletesFile.value == DeletesFile(u1) && u1 < u2
    ensures forall n: Name :: n in Named(m.(segments := refs, deletesFile := deletesFile)) ==> n.uid < u2 && !n.TmpFile?
  {
    NamedGrows(m, refs, deletesFile);
  }

  lemma FlushFilesOpen(lx: Lexer, s: Snapshot, f0: map<Name, File>, f1: map<Name, File>, f2: map<Name, File>,
                       m: Manifest, refs: seq<SegmentRef>, deletesFile: Option<Name>, u0: nat, u1: nat)
    requires forall n: Name :: n in Named(m) ==> n.uid < u0
    requires OnlyNewUids(f1, f0, u0) && OnlyNewUids(f2, f1, u1) && u0 <= u1 && (s.overlay.docs != [] ==> u0 < u1)
    requires SegmentsFor(lx, s.overlay, m, refs, f1, u0) && OpenDeletes(f2, deletesFile) == Ok(s.deleted)
    ensures PublishesFlush(lx, s, State(f0, Some(m)), State(f2, Some(m.(segments := refs, deletesFile := deletesFile))))
  {
    OpenFlushed(lx, s, f0, f2, m, m.(segments := refs, deletesFile := deletesFile), u0);
  }

  method FlushOverlayDurable(lx: Lexer, dir: Directory, s: Snapshot, anchor: FlushAnchor)
    returns (r: Result<Snapshot>, ghost cut: nat)
    requires dir.Valid() && LayersWF(lx, s)
    modifies dir
    // A crash at any point leaves the old index or the new one.
    ensures dir.Valid() && CrashSafe(old(dir.past), dir.past, cut, Load(old(dir.Now())), Load(dir.Now()))
    // The guard refuses before anything is written; it never refuses a
    // snapshot in step with the disk.
    ensures old(dir.manifest).None? || !FlushGuard(old(dir.manifest).value, s) ==> r.Err? && dir.past == old(dir.past)
    ensures Synced(old(dir.Now()), s) ==> FlushGuard(old(dir.manifest).value, s)
    // Not published: nothing changed for anyone opening the index.
    ensures cut == |dir.past| ==> r.Err? && SameIndex(old(dir.Now()), dir.Now())
    // Published, in step with the disk or not: the directory opens as the base
    // it had with the overlay on top, or, when the overlay has gaps or starts
    // below the end of that base, not at all.
    ensures cut < |dir.past| ==> r == Load(dir.Now()) || r == Err(IoFailed)
    ensures cut < |dir.past| ==> PublishesFlush(lx, s, old(dir.Now()), dir.Now())
    ensures cut < |dir.past| && Synced(old(dir.Now()), s) ==> OpensFlushed(lx, s, dir.Now())
    ensures cut < |dir.past| ==>
              && old(dir.manifest).Some? && dir.manifest.Some?
              && FlushGuard(old(dir.manifest).value, s)
              && Advanced(old(dir.manifest).value, dir.manifest.value, anchor)
    // Past the guard, only a failing system call can keep it from publishing.
    ensures old(dir.Working()) && old(dir.manifest).Some? && FlushGuard(old(dir.manifest).value, s) ==>
              cut < |dir.past| && r == Load(dir.Now()) && dir.Working()
  {
    if dir.manifest.None? {
      return Err(IoFailed), |dir.past|;
    }
    var m := dir.manifest.value;
    if Synced(dir.Now(), s) {
      OpenSegmentsShape(dir.files, m.segments);
      SumsAgree(m.segments, s.segs);
    }
    if !FlushGuard(m, s) {
      return Err(CorruptIndex), |dir.past|;
    }
    r, cut := FlushGuarded(lx, dir, s, m, anchor);
    if Synced(old(dir.Now()), s) && cut < |dir.past| {
      InStepFlush(lx, s, old(dir.Now()), dir.Now());
    }
  }

  // One generation per flush, saturating; only a flush of committed content moves the head.
  ghost predicate Advanced(m: Manifest, m2: Manifest, anchor: FlushAnchor) {
    && m2.overlayGen == Min(m.overlayGen + 1, U64_MAX)
    && m2.baseCommit == if anchor.AdvanceHead? then anchor.head else m.baseCommit
  }

  method FlushGuarded(lx: Lexer, dir: Directory, s: Snapshot, m: Manifest, anchor: FlushAnchor)
    returns (r: Result<Snapshot>, ghost cut: nat)
    requires dir.Valid() && LayersWF(lx, s) && dir.manifest == Some(m)
    modifies dir
    ensures dir.Valid() && CrashSafe(old(dir.past), dir.past, cut, Load(old(dir.Now())), Load(dir.Now()))
    ensures cut == |dir.past| ==> r.Err? && SameIndex(old(dir.Now()), dir.Now())
    ensures cut < |dir.past| ==> r == Load(dir.Now()) || r == Err(IoFailed)
    ensures cut < |dir.past| ==> PublishesFlush(lx, s, old(dir.Now()), dir.Now())
    ensures cut < |dir.past| ==> dir.manifest.Some? && Advanced(m, dir.manifest.value, anchor)
    ensures old(dir.Working()) ==> cut < |dir.past| && r == Load(dir.Now()) && dir.Working()
  {
    ghost var p0, st0, u0 := dir.past, dir.Now(), dir.nextUid;
    var written := WriteFlushFiles(lx, dir, s, m);
    ghost var p1, st1 := dir.past, dir.Now();
    QuietLoad(p0, p1, st0, dir.files, u0);
    cut := |p1|;
    if written.Err? {
      return Err(written.error), cut;
    }
    var head := if anchor.AdvanceHead? then anchor.head else m.baseCommit;
    var next := Manifest(written.value.segments, written.value.deletesFile, head, Min(m.overlayGen + 1, U64_MAX));
    assert Named(next) == Named(written.value);
    r, cut := dir.Publish(next);
    CrashSafeAfterQuiet(p0, p1, dir.past, cut, st0, st1.files, u0, Load(dir.Now()));
    if cut < |dir.past| {
      PublishedSame(lx, s, st0, State(st1.files, Some(written.value)), State(st1.files, Some(next)));
      PublishedFrame(lx, s, st0, State(st1.files, Some(next)), dir.Now());
    }
  }

  lemma PublishedSame(lx: Lexer, s: Snapshot, before: State, a: State, b: State)
    requires PublishesFlush(lx, s, before, a) && a.files == b.files && a.manifest.Some? && b.manifest.Some?
    requires a.manifest.value.segments == b.manifest.value.segments
    requires a.manifest.value.deletesFile == b.manifest.value.deletesFile
    ensures PublishesFlush(lx, s, before, b)
  {
    assert Load(a) == Load(b);
  }

  lemma PublishedFrame(lx: Lexer, s: Snapshot, before: State, a: State, b: State)
    requires PublishesFlush(lx, s, before, a) && a.manifest == b.manifest
    requires a.manifest.Some? ==> AgreeOn(a.files, b.files, Named(a.manifest.value))
    ensures PublishesFlush(lx, s, before, b)
  {
    LoadFrame(a, b);
    BaseFrame(a, b);
  }
}
