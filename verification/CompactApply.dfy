// Running a compaction: collect the live documents, remap the postings, write
// the output segments, publish (compact.rs:97-323).
module CompactApply {
  import opened Common
  import opened Snapshots
  import opened CompactPlan
  import opened Compact
  import opened Compaction

  function DocsOf(rows: seq<Row>): (r: seq<Doc>)
    ensures |r| == |rows| && forall i :: 0 <= i < |r| ==> r[i] == DocOf(rows[i])
  {
    seq(|rows|, i requires 0 <= i < |rows| => DocOf(rows[i]))
  }

  lemma DocsOfAppend(a: seq<Row>, b: seq<Row>)
    ensures DocsOf(a + b) == DocsOf(a) + DocsOf(b)
  {
  }

  // ---------------------------------------------------------------- collecting documents

  // `docs` and then the live ones among the first `i` documents of a segment.
  ghost function SegmentUpTo(docs: seq<Doc>, seg: Segment, hidden: set<nat>, i: nat): seq<Doc>
    requires i <= |seg.docs|
  {
    docs + DocsOf(Keep(SegRows(seg)[..i], hidden))
  }

  lemma SegmentOneMore(docs: seq<Doc>, seg: Segment, hidden: set<nat>, i: nat)
    requires i < |seg.docs| && seg.docs[i].id == seg.base + i
    ensures var now := SegmentUpTo(docs, seg, hidden, i);
            SegmentUpTo(docs, seg, hidden, i + 1) == if seg.base + i in hidden then now else now + [seg.docs[i]]
    ensures |SegmentUpTo(docs, seg, hidden, i + 1)| <= |SegmentUpTo(docs, seg, hidden, |seg.docs|)|
  {
    var rows := SegRows(seg);
    assert rows[..i + 1][..i] == rows[..i];
    assert rows[..|seg.docs|] == rows == rows[..i + 1] + rows[i + 1..];
    KeepAppend(rows[..i + 1], rows[i + 1..], hidden);
    DocsOfAppend(Keep(rows[..i], hidden), [rows[i]]);
  }

  lemma {:induction false} SegmentBelow(docs: seq<Doc>, seg: Segment, hidden: set<nat>, i: nat)
    requires i <= |seg.docs| && forall k :: 0 <= k < i ==> seg.docs[k].id == seg.base + k
    requires Below(docs, seg.base)
    ensures Below(SegmentUpTo(docs, seg, hidden, i), seg.base + i)
  {
    if i > 0 {
      SegmentBelow(docs, seg, hidden, i - 1);
      SegmentOneMore(docs, seg, hidden, i - 1);
    }
  }

  // One document of a base segment, unless it is hidden.
  method AddIfLive(id: nat, d: Doc, deleted: set<nat>, st: CompactionState, ghost now: seq<Doc>, ghost next: seq<Doc>)
    returns (ok: bool)
    requires d.id == id && next == if id in deleted then now else now + [d]
    requires st.Collecting() == Some(now) && Below(now, id) && st.start + |now| <= U32_MAX
    modifies st
    ensures ok ==> st.Collecting() == Some(next)
    ensures ok <==> st.start + |next| <= U32_MAX
  {
    if id in deleted {
      return true;
    }
    assert Doc(id, d.path, d.hash, d.size) == d;
    ok := st.AddDocument(id, d.path, d.hash, d.size);
  }

  lemma NextSegmentDocument(docs: seq<Doc>, seg: Segment, hidden: set<nat>, i: nat, now: seq<Doc>, next: seq<Doc>)
    requires i < |seg.docs| && Below(docs, seg.base) && forall k :: 0 <= k <= i ==> seg.docs[k].id == seg.base + k
    requires now == SegmentUpTo(docs, seg, hidden, i) && next == SegmentUpTo(docs, seg, hidden, i + 1)
    ensures Below(now, seg.base + i) && seg.docs[i].id == seg.base + i
    ensures next == if seg.base + i in hidden then now else now + [seg.docs[i]]
    ensures |next| <= |SegmentUpTo(docs, seg, hidden, |seg.docs|)|
  {
    SegmentBelow(docs, seg, hidden, i);
    SegmentOneMore(docs, seg, hidden, i);
  }

  method AddNthDocument(seg: Segment, i: nat, deleted: set<nat>, st: CompactionState, ghost docs: seq<Doc>)
    returns (ok: bool)
    requires i < |seg.docs| && Below(docs, seg.base) && forall k :: 0 <= k <= i ==> seg.docs[k].id == seg.base + k
    requires st.Collecting() == Some(SegmentUpTo(docs, seg, deleted, i))
    requires st.start + |SegmentUpTo(docs, seg, deleted, i)| <= U32_MAX
    modifies st
    ensures ok ==> st.Collecting() == Some(SegmentUpTo(docs, seg, deleted, i + 1))
    ensures ok ==> st.start + |SegmentUpTo(docs, seg, deleted, i + 1)| <= U32_MAX
    ensures !ok ==> st.start + |SegmentUpTo(docs, seg, deleted, |seg.docs|)| > U32_MAX
  {
    ghost var now, next := SegmentUpTo(docs, seg, deleted, i), SegmentUpTo(docs, seg, deleted, i + 1);
    NextSegmentDocument(docs, seg, deleted, i, now, next);
    ok := AddIfLive(seg.base + i, seg.docs[i], deleted, st, now, next);
  }

  // The live documents of one base segment (compact.rs:186-219).
  method AddSegment(seg: Segment, deleted: set<nat>, st: CompactionState, ghost docs: seq<Doc>) returns (ok: bool)
    requires forall k :: 0 <= k < |seg.docs| ==> seg.docs[k].id == seg.base + k
    requires st.Collecting() == Some(docs) && Below(docs, seg.base) && st.start + |docs| <= U32_MAX
    modifies st
    ensures ok ==> st.Collecting() == Some(docs + DocsOf(Keep(SegRows(seg), deleted)))
    ensures ok <==> st.start + |docs| + |Keep(SegRows(seg), deleted)| <= U32_MAX
  {
    assert SegRows(seg)[..|seg.docs|] == SegRows(seg);
    assert SegmentUpTo(docs, seg, deleted, 0) == docs;
    for i := 0 to |seg.docs|
      invariant st.Collecting() == Some(SegmentUpTo(docs, seg, deleted, i))
      invariant st.start + |SegmentUpTo(docs, seg, deleted, i)| <= U32_MAX
    {
      ok := AddNthDocument(seg, i, deleted, st, docs);
      if !ok {
        return;
      }
    }
    ok := true;
  }

  ghost function OverlayUpTo(docs: seq<Doc>, lx: Lexer, overlay: seq<OverlayDoc>, i: nat): seq<Doc>
    requires i <= |overlay|
  {
    docs + DocsOf(OverlayRows(lx, overlay))[..i]
  }

  lemma OverlayOneMore(docs: seq<Doc>, lx: Lexer, overlay: seq<OverlayDoc>, i: nat)
    requires i < |overlay|
    ensures OverlayUpTo(docs, lx, overlay, i + 1)
         == OverlayUpTo(docs, lx, overlay, i)
            + [Doc(overlay[i].id, overlay[i].path, lx.hash(overlay[i].content), |overlay[i].content|)]
  {
    var all := DocsOf(OverlayRows(lx, overlay));
    assert all[..i + 1] == all[..i] + [all[i]];
    ConcatAssoc(docs, all[..i], [all[i]]);
  }

  lemma OverlayBelow(docs: seq<Doc>, lx: Lexer, overlay: seq<OverlayDoc>, i: nat)
    requires i < |overlay| && Below(docs, overlay[0].id)
    requires forall k, l :: 0 <= k < l < |overlay| ==> overlay[k].id < overlay[l].id
    ensures Below(OverlayUpTo(docs, lx, overlay, i), overlay[i].id)
  {
  }

  // The overlay's documents (compact.rs:221-228).
  method AddOverlay(lx: Lexer, overlay: seq<OverlayDoc>, st: CompactionState, ghost docs: seq<Doc>) returns (ok: bool)
    requires forall i, j :: 0 <= i < j < |overlay| ==> overlay[i].id < overlay[j].id
    requires overlay != [] ==> Below(docs, overlay[0].id)
    requires st.Collecting() == Some(docs) && st.start + |docs| <= U32_MAX
    modifies st
    ensures ok <==> st.start + |docs| + |overlay| <= U32_MAX
    ensures ok ==> st.Collecting() == Some(docs + DocsOf(OverlayRows(lx, overlay)))
  {
    assert OverlayUpTo(docs, lx, overlay, 0) == docs;
    for i := 0 to |overlay|
      invariant st.Collecting() == Some(OverlayUpTo(docs, lx, overlay, i)) && st.start + |docs| + i <= U32_MAX
    {
      OverlayBelow(docs, lx, overlay, i);
      OverlayOneMore(docs, lx, overlay, i);
      ok := st.AddDocument(overlay[i].id, overlay[i].path, lx.hash(overlay[i].content), |overlay[i].content|);
      if !ok {
        return;
      }
    }
    assert OverlayUpTo(docs, lx, overlay, |overlay|) == docs + DocsOf(OverlayRows(lx, overlay));
    ok := true;
  }

  method AddSuffix(lx: Lexer, s: Snapshot, start: nat, st: CompactionState) returns (ok: bool)
    requires LayersWF(lx, s) && start <= |s.segs|
    requires st.Collecting() == Some([]) && st.start <= U32_MAX
    modifies st
    ensures ok <==> st.start + |SuffixRows(lx, s, start)| <= U32_MAX
    ensures ok ==> st.Collecting() == Some(DocsOf(SuffixRows(lx, s, start)))
  {
    assert s.segs[start..|s.segs|] == s.segs[start..];
    DocsOfAppend(Keep(AllRows(s.segs[start..]), s.deleted), OverlayRows(lx, s.overlay.docs));
    ok := AddBase(s, start, st);
    if ok {
      BaseBelow(s, start, |s.segs|, Limit(s.segs));
      ok := AddOverlay(lx, s.overlay.docs, st, BaseUpTo(s, start, |s.segs|));
    }
  }

  // The live documents of segments `start..k`.
  ghost function BaseUpTo(s: Snapshot, start: nat, k: nat): seq<Doc>
    requires start <= k <= |s.segs|
  {
    DocsOf(Keep(AllRows(s.segs[start..k]), s.deleted))
  }

  lemma BaseOneMore(s: Snapshot, start: nat, k: nat)
    requires start <= k < |s.segs|
    ensures BaseUpTo(s, start, k + 1) == BaseUpTo(s, start, k) + DocsOf(Keep(SegRows(s.segs[k]), s.deleted))
  {
    assert s.segs[start..k + 1][..k - start] == s.segs[start..k];
    KeepAppend(AllRows(s.segs[start..k]), SegRows(s.segs[k]), s.deleted);
    DocsOfAppend(Keep(AllRows(s.segs[start..k]), s.deleted), Keep(SegRows(s.segs[k]), s.deleted));
  }

  lemma BaseNoLess(s: Snapshot, start: nat, k: nat)
    requires start <= k <= |s.segs|
    ensures |BaseUpTo(s, start, k)| <= |BaseUpTo(s, start, |s.segs|)|
  {
    var a, b := s.segs[start..k], s.segs[k..];
    assert s.segs[start..|s.segs|] == a + b;
    AllRowsAppend(a, b);
    KeepAppend(AllRows(a), AllRows(b), s.deleted);
  }

  lemma BaseBelow(s: Snapshot, start: nat, k: nat, limit: nat)
    requires SegsWF(s.segs) && start <= k <= |s.segs|
    requires k > start ==> s.segs[k - 1].End() <= limit
    ensures Below(BaseUpTo(s, start, k), limit)
  {
    var rows := AllRows(s.segs[start..k]);
    SegsWFSlice(s.segs, start, k);
    KeepMember(rows, s.deleted);
    var kept := Keep(rows, s.deleted);
    forall i | 0 <= i < |DocsOf(kept)| ensures DocsOf(kept)[i].id < limit {
      assert kept[i] in kept;
      BaseRowBounds(s.segs[start..k], kept[i]);
    }
  }

  lemma SegsWFSlice(segs: seq<Segment>, start: nat, k: nat)
    requires SegsWF(segs) && start <= k <= |segs|
    ensures SegsWF(segs[start..k])
    ensures k > start ==> Limit(segs[start..k]) == segs[k - 1].End()
  {
  }

  method AddNth(s: Snapshot, start: nat, k: nat, st: CompactionState) returns (ok: bool)
    requires SegsWF(s.segs) && start <= k < |s.segs|
    requires st.Collecting() == Some(BaseUpTo(s, start, k)) && st.start + |BaseUpTo(s, start, k)| <= U32_MAX
    modifies st
    ensures ok ==>
              st.Collecting() == Some(BaseUpTo(s, start, k + 1)) && st.start + |BaseUpTo(s, start, k + 1)| <= U32_MAX
    ensures !ok ==> st.start + |BaseUpTo(s, start, |s.segs|)| > U32_MAX
  {
    BaseOneMore(s, start, k);
    BaseNoLess(s, start, k + 1);
    BaseBelow(s, start, k, s.segs[k].base);
    ok := AddSegment(s.segs[k], s.deleted, st, BaseUpTo(s, start, k));
  }

  lemma BaseNone(s: Snapshot, start: nat)
    requires start <= |s.segs|
    ensures BaseUpTo(s, start, start) == []
  {
    assert s.segs[start..start] == [];
  }

  method AddBase(s: Snapshot, start: nat, st: CompactionState) returns (ok: bool)
    requires SegsWF(s.segs) && start <= |s.segs|
    requires st.Collecting() == Some([]) && st.start <= U32_MAX
    modifies st
    ensures ok ==> st.Collecting() == Some(BaseUpTo(s, start, |s.segs|))
    ensures ok <==> st.start + |BaseUpTo(s, start, |s.segs|)| <= U32_MAX
  {
    BaseNone(s, start);
    for k := start to |s.segs|
      invariant st.Collecting() == Some(BaseUpTo(s, start, k))
      invariant st.start + |BaseUpTo(s, start, k)| <= U32_MAX
    {
      ok := AddNth(s, start, k, st);
      if !ok {
        return;
      }
    }
    ok := true;
  }

  // ---------------------------------------------------------------- remapping postings

  ghost predicate PostedBase(segs: seq<Segment>, lo: nat, hi: nat, g: Gram, x: nat)
    requires hi <= |segs|
  {
    exists k :: lo <= k < hi && Posted(segs[k].postings, g, x)
  }

  ghost predicate PostedIn(s: Snapshot, start: nat, g: Gram, x: nat)
    requires start <= |s.segs|
  {
    PostedBase(s.segs, start, |s.segs|, g, x) || Posted(s.overlay.gramIndex, g, x)
  }

  // The postings of segments `start..k`, and those of the whole suffix.
  ghost function PostedUpTo(segs: seq<Segment>, start: nat, k: nat): set<(Gram, nat)>
    requires start <= k <= |segs|
    decreases k
  {
    if k == start then {} else PostedUpTo(segs, start, k - 1) + PairsOf(segs[k - 1].postings, segs[k - 1].postings.Keys)
  }

  ghost function PostedAll(s: Snapshot, start: nat): set<(Gram, nat)>
    requires start <= |s.segs|
  {
    PostedUpTo(s.segs, start, |s.segs|) + PairsOf(s.overlay.gramIndex, s.overlay.gramIndex.Keys)
  }

  lemma {:induction false} PostedUpToExact(segs: seq<Segment>, start: nat, k: nat, g: Gram, x: nat)
    requires start <= k <= |segs|
    ensures (g, x) in PostedUpTo(segs, start, k) <==> PostedBase(segs, start, k, g, x)
    decreases k
  {
    if k > start {
      PostedUpToExact(segs, start, k - 1, g, x);
    }
  }

  lemma PostedAllExact(s: Snapshot, start: nat, g: Gram, x: nat)
    requires start <= |s.segs|
    ensures (g, x) in PostedAll(s, start) <==> PostedIn(s, start, g, x)
  {
    PostedUpToExact(s.segs, start, |s.segs|, g, x);
  }

  // compact.rs:230-254
  method MapPostings(lx: Lexer, s: Snapshot, start: nat, st: CompactionState)
    requires LayersWF(lx, s) && start <= |s.segs| && st.Remapping() == Some({})
    modifies st`writers, st`posted
    ensures st.Remapping() == Some(PostedAll(s, start))
  {
    for k := start to |s.segs|
      invariant st.Remapping() == Some(PostedUpTo(s.segs, start, k))
    {
      SegmentAbove(s.segs, start, k);
      st.AddMap(s.segs[k].postings);
    }
    OverlayAbove(lx, s, start);
    st.AddMap(s.overlay.gramIndex);
  }

  // Later segments, and then the overlay, post higher ids only.
  lemma SegmentAbove(segs: seq<Segment>, start: nat, k: nat)
    requires SegsWF(segs) && start <= k < |segs|
    ensures forall g :: g in segs[k].postings ==> Ascending(segs[k].postings[g])
    ensures forall g: Gram, x: nat :: Posted(segs[k].postings, g, x) ==> PostedBelow(PostedUpTo(segs, start, k), g, x)
  {
    assert SegWF(segs[k]);
    forall g: Gram, x: nat, y: nat | Posted(segs[k].postings, g, x) && (g, y) in PostedUpTo(segs, start, k)
      ensures y < x
    {
      PostedUpToExact(segs, start, k, g, y);
      PostedEarlier(segs, start, k, g, x, y);
    }
  }

  lemma OverlayAbove(lx: Lexer, s: Snapshot, start: nat)
    requires LayersWF(lx, s) && start <= |s.segs|
    ensures forall g :: g in s.overlay.gramIndex ==> Ascending(s.overlay.gramIndex[g])
    ensures forall g: Gram, x: nat :: Posted(s.overlay.gramIndex, g, x) ==>
              PostedBelow(PostedUpTo(s.segs, start, |s.segs|), g, x)
  {
    forall g: Gram, x: nat, y: nat | Posted(s.overlay.gramIndex, g, x) && (g, y) in PostedUpTo(s.segs, start, |s.segs|)
      ensures y < x
    {
      PostedUpToExact(s.segs, start, |s.segs|, g, y);
      OverlayPostedAbove(lx, s, start, g, x, y);
    }
  }

  lemma PostedEarlier(segs: seq<Segment>, start: nat, k: nat, g: Gram, x: nat, y: nat)
    requires SegsWF(segs) && k < |segs| && PostedBase(segs, start, k, g, y) && Posted(segs[k].postings, g, x)
    ensures y < x
  {
    var l :| start <= l < k && Posted(segs[l].postings, g, y);
    assert SegWF(segs[l]) && SegWF(segs[k]);
    assert segs[l].End() <= segs[k].base;
  }

  lemma OverlayPostedAbove(lx: Lexer, s: Snapshot, start: nat, g: Gram, x: nat, y: nat)
    requires LayersWF(lx, s) && PostedBase(s.segs, start, |s.segs|, g, y) && Posted(s.overlay.gramIndex, g, x)
    ensures y < x
  {
    var l :| start <= l < |s.segs| && Posted(s.segs[l].postings, g, y);
    assert SegWF(s.segs[l]);
    LimitBounds(s.segs);
    assert Holds(s.overlay.docs, g, x);
  }
}
