// The working state of a compaction (compact.rs:19-95): documents are packed
// into output segments under new ids, and a map from old ids to new ones is
// kept for the posting lists that follow.
module Compaction {
  import opened Common
  import opened Snapshots
  import opened Writers
  import opened Packing

  datatype Target = Target(segmentIdx: nat, globalDocId: nat)

  // A writer based at `base` holds documents `lo..hi` renumbered.
  ghost predicate WriterHolds(w: Writer, base: nat, added: seq<Doc>, start: nat, lo: nat, hi: nat) {
    && lo <= hi <= |added| && base == start + lo
    && |w.docs| == hi - lo && forall i :: 0 <= i < |w.docs| ==> w.docs[i] == added[lo + i].(id := base + i)
  }

  // Each writer holds one run of the renumbered documents.
  ghost predicate WritersHold(writers: seq<Writer>, bases: seq<nat>, starts: seq<nat>, added: seq<Doc>, start: nat) {
    && |writers| == |bases| == |starts|
    && forall t :: 0 <= t < |starts| ==>
          WriterHolds(writers[t], bases[t], added, start, starts[t], EndOf(starts, t, |added|))
  }

  // The old ids with a target are those of the documents added, each mapped to
  // its new id and the segment that owns it.
  ghost predicate TargetsExact(targetMap: seq<Option<Target>>, starts: seq<nat>, added: seq<Doc>, start: nat) {
    && (forall x :: 0 <= x < |targetMap| && targetMap[x].Some? ==> OldId(added, x))
    && (forall k :: 0 <= k < |added| ==>
          added[k].id < |targetMap| && targetMap[added[k].id] == Some(Target(SegmentOf(starts, k), start + k)))
  }

  ghost predicate OldId(added: seq<Doc>, x: nat) {
    |added| > 0 && (added[|added| - 1].id == x || OldId(added[..|added| - 1], x))
  }

  lemma {:induction false} FindOldId(added: seq<Doc>, x: nat) returns (k: nat)
    requires OldId(added, x)
    ensures k < |added| && added[k].id == x
  {
    k := |added| - 1;
    if added[k].id != x {
      k := FindOldId(added[..k], x);
    }
  }

  // Writer `t` holds a posting exactly when the new id is in its range and the
  // old id was posted.
  ghost predicate PairsExact(writers: seq<Writer>, starts: seq<nat>, added: seq<Doc>, start: nat,
                             posted: set<(Gram, nat)>)
  {
    forall t, g: Gram, n: nat :: 0 <= t < |writers| ==>
      ((g, n) in writers[t].pairs <==> Remapped(starts, added, start, posted, t, g, n))
  }

  ghost predicate Remapped(starts: seq<nat>, added: seq<Doc>, start: nat, posted: set<(Gram, nat)>, t: nat, g: Gram,
                           n: nat)
  {
    start <= n < start + |added| && SegmentOf(starts, n - start) == t && (g, added[n - start].id) in posted
  }

  // For each gram the ids come strictly ascending, before any sorting.
  ghost predicate ListsAscend(pairs: seq<(Gram, nat)>) {
    forall i, j :: 0 <= i < j < |pairs| && pairs[i].0 == pairs[j].0 ==> pairs[i].1 < pairs[j].1
  }

  ghost predicate AllListsAscend(writers: seq<Writer>) {
    forall t :: 0 <= t < |writers| ==> ListsAscend(writers[t].pairs)
  }

  ghost predicate NoPairs(writers: seq<Writer>) { forall t :: 0 <= t < |writers| ==> writers[t].pairs == [] }

  ghost predicate Below(docs: seq<Doc>, limit: nat) { forall i :: 0 <= i < |docs| ==> docs[i].id < limit }

  function Resized(targetMap: seq<Option<Target>>, n: nat): (r: seq<Option<Target>>)
    ensures |r| == Max(n, |targetMap|)
    ensures forall x :: 0 <= x < |r| ==> r[x] == if x < |targetMap| then targetMap[x] else None
  {
    if |targetMap| >= n then targetMap else targetMap + seq(n - |targetMap|, i => None)
  }

  // Where everything has been put so far: the fields of `CompactionState`.
  datatype Layout = Layout(writers: seq<Writer>, bases: seq<nat>, targetMap: seq<Option<Target>>,
                           segmentIdx: nat, segmentBytes: nat, nextDocId: nat)

  // The layout places exactly the documents `added`, packed greedily.
  ghost predicate Places(l: Layout, starts: seq<nat>, added: seq<Doc>, start: nat, batch: nat) {
    && l.nextDocId == start + |added|
    && Packed(starts, l.segmentBytes) == Pack(DocSizes(added), batch)
    && (|l.writers| > 0 ==> l.segmentIdx == |l.writers| - 1)
    && DocsAscend(added)
    && WritersHold(l.writers, l.bases, starts, added, start)
    && TargetsExact(l.targetMap, starts, added, start)
  }

  predicate NeedsNewSegment(l: Layout, size: nat, batch: nat) {
    |l.writers| == 0 || (l.segmentBytes > 0 && l.segmentBytes + Max(size, 1) > batch)
  }

  // One document more.
  function PlaceNext(l: Layout, d: Doc, batch: nat): Layout
    requires |l.writers| == |l.bases| && (|l.writers| > 0 ==> l.segmentIdx == |l.writers| - 1)
  {
    var fresh' := NeedsNewSegment(l, d.size, batch);
    var writers := if fresh' then l.writers + [EmptyWriter] else l.writers;
    var idx := |writers| - 1;
    Layout(writers[idx := writers[idx].AddDocument(l.nextDocId, d.path, d.hash, d.size)],
           if fresh' then l.bases + [l.nextDocId] else l.bases,
           Resized(l.targetMap, d.id + 1)[d.id := Some(Target(idx, l.nextDocId))],
           idx, Max(d.size, 1) + (if fresh' then 0 else l.segmentBytes), l.nextDocId + 1)
  }

  class CompactionState {
    var writers: seq<Writer>
    var writerBaseDocIds: seq<nat>
    var targetMap: seq<Option<Target>>
    var currentSegmentIdx: nat
    var currentSegmentBytes: nat
    var nextDocId: nat
    const batchSizeBytes: nat
    // First new id, the documents added so far under their old ids, where each
    // output segment starts among them, and the postings seen under old ids.
    ghost const start: nat
    ghost var added: seq<Doc>
    ghost var starts: seq<nat>
    ghost var posted: set<(Gram, nat)>

    constructor (startDocId: nat, batch: nat)
      requires startDocId <= U32_MAX
      ensures Collecting() == Some([])
      ensures start == startDocId && batchSizeBytes == Max(batch, 1)
    {
      writers, writerBaseDocIds, targetMap := [], [], [];
      currentSegmentIdx, currentSegmentBytes, nextDocId := 0, 0, startDocId;
      batchSizeBytes := Max(batch, 1);
      start, added, starts, posted := startDocId, [], [], {};
    }

    ghost function Current(): Layout reads this {
      Layout(writers, writerBaseDocIds, targetMap, currentSegmentIdx, currentSegmentBytes, nextDocId)
    }

    ghost predicate Valid() reads this {
      batchSizeBytes >= 1 && nextDocId <= U32_MAX && Places(Current(), starts, added, start, batchSizeBytes)
    }

    ghost predicate Unposted() reads this { posted == {} && NoPairs(writers) }

    ghost predicate PostingsOk() reads this {
      PairsExact(writers, starts, added, start, posted) && AllListsAscend(writers)
    }

    // The documents collected so far, while no posting has been added.
    ghost function Collecting(): Option<seq<Doc>> reads this {
      if Valid() && Unposted() then Some(added) else None
    }

    // Put one document in place (compact.rs:58-94); fails when ids run out.
    method Place(oldGlobalId: nat, path: Path, hash: nat, size: nat) returns (ok: bool)
      requires |writers| == |writerBaseDocIds| && (|writers| > 0 ==> currentSegmentIdx == |writers| - 1)
      modifies this`writers, this`writerBaseDocIds, this`targetMap, this`currentSegmentIdx, this`currentSegmentBytes
      modifies this`nextDocId
      ensures ok <==> old(nextDocId) != U32_MAX
      ensures ok ==> Current() == PlaceNext(old(Current()), Doc(oldGlobalId, path, hash, size), batchSizeBytes)
    {
      var sizeCost := Max(size, 1);
      var full := currentSegmentBytes > 0 && currentSegmentBytes + sizeCost > batchSizeBytes;
      var needNewSegment := |writers| != 0 && full;
      if |writers| == 0 || needNewSegment {
        writers := writers + [EmptyWriter];
        writerBaseDocIds := writerBaseDocIds + [nextDocId];
        currentSegmentIdx := |writers| - 1;
        currentSegmentBytes := 0;
      }
      var newGlobalId := nextDocId;
      writers := writers[currentSegmentIdx := writers[currentSegmentIdx].AddDocument(newGlobalId, path, hash, size)];
      targetMap := Resized(targetMap, oldGlobalId + 1);
      targetMap := targetMap[oldGlobalId := Some(Target(currentSegmentIdx, newGlobalId))];
      currentSegmentBytes := currentSegmentBytes + sizeCost;
      if nextDocId == U32_MAX {
        return false;
      }
      nextDocId := nextDocId + 1;
      ok := true;
    }

    method AddDocument(oldGlobalId: nat, path: Path, hash: nat, size: nat) returns (ok: bool)
      requires Collecting().Some? && Below(Collecting().value, oldGlobalId)
      modifies this
      ensures ok <==> start + |old(Collecting()).value| < U32_MAX
      ensures ok ==> Collecting() == Some(old(Collecting()).value + [Doc(oldGlobalId, path, hash, size)])
    {
      ghost var l, d := Current(), Doc(oldGlobalId, path, hash, size);
      ok := Place(oldGlobalId, path, hash, size);
      if ok {
        PlacesStep(l, starts, added, start, batchSizeBytes, d);
        starts := NextStarts(l, starts, |added|, size, batchSizeBytes);
        added := added + [d];
      }
    }

    // The postings seen so far, while they are being remapped.
    ghost function Remapping(): Option<set<(Gram, nat)>> reads this {
      if Valid() && PostingsOk() then Some(posted) else None
    }

    lemma BeginRemapping()
      requires Collecting().Some?
      ensures Remapping() == Some({})
    {
    }

    // One posting of the old index (compact.rs:240-244, 247-253): dropped when
    // its document is, otherwise appended to the segment that now owns it.
    method AddPosting(g: Gram, oldGlobalId: nat)
      requires Remapping().Some? && PostedBelow(Remapping().value, g, oldGlobalId)
      modifies this`writers, this`posted
      ensures Remapping() == Some(old(Remapping()).value + {(g, oldGlobalId)})
    {
      PostStep(writers, writerBaseDocIds, targetMap, starts, added, start, batchSizeBytes, posted, g, oldGlobalId);
      if oldGlobalId < |targetMap| && targetMap[oldGlobalId].Some? {
        var target := targetMap[oldGlobalId].value;
        writers := writers[target.segmentIdx := writers[target.segmentIdx].AddGramPosting(g, target.globalDocId)];
      }
      posted := posted + {(g, oldGlobalId)};
    }

    // One posting list, ascending.
    method AddList(g: Gram, ids: seq<nat>)
      requires Remapping().Some? && Ascending(ids)
      requires forall x :: x in ids ==> PostedBelow(Remapping().value, g, x)
      modifies this`writers, this`posted
      ensures Remapping() == Some(old(Remapping()).value + PairsFor(g, ids))
    {
      ghost var before := Remapping().value;
      assert before + PairsFor(g, ids[..0]) == before;
      for j := 0 to |ids|
        invariant Remapping() == Some(before + PairsFor(g, ids[..j]))
      {
        NextBelow(before, g, ids, j);
        AddPosting(g, ids[j]);
      }
      assert ids[..|ids|] == ids;
    }

    // Every list of one posting map, grams in any order.
    method AddMap(postings: map<Gram, seq<nat>>)
      requires Remapping().Some? && forall g :: g in postings ==> Ascending(postings[g])
      requires forall g: Gram, x: nat :: Posted(postings, g, x) ==> PostedBelow(Remapping().value, g, x)
      modifies this`writers, this`posted
      ensures Remapping() == Some(old(Remapping()).value + PairsOf(postings, postings.Keys))
    {
      ghost var before := Remapping().value;
      var todo := postings.Keys;
      assert before + PairsOf(postings, postings.Keys - todo) == before;
      while todo != {}
        invariant todo <= postings.Keys
        invariant Remapping() == Some(before + PairsOf(postings, postings.Keys - todo))
        decreases todo
      {
        var g :| g in todo;
        GramBelow(before, postings, postings.Keys - todo, g);
        AddList(g, postings[g]);
        PairsOfMore(before, postings, postings.Keys - todo, g);
        assert postings.Keys - (todo - {g}) == postings.Keys - todo + {g};
        todo := todo - {g};
      }
      assert postings.Keys - todo == postings.Keys;
    }
  }

  // All postings of a gram seen so far name lower ids.
  ghost predicate PostedBelow(posted: set<(Gram, nat)>, g: Gram, x: nat) { forall y: nat :: (g, y) in posted ==> y < x }

  function PairsFor(g: Gram, ids: seq<nat>): set<(Gram, nat)> { set x | x in ids :: (g, x) }

  lemma NextBelow(before: set<(Gram, nat)>, g: Gram, ids: seq<nat>, j: nat)
    requires Ascending(ids) && j < |ids| && PostedBelow(before, g, ids[j])
    ensures PostedBelow(before + PairsFor(g, ids[..j]), g, ids[j])
    ensures before + PairsFor(g, ids[..j]) + {(g, ids[j])} == before + PairsFor(g, ids[..j + 1])
  {
    assert ids[..j + 1] == ids[..j] + [ids[j]];
    forall y: nat | y in ids[..j] ensures y < ids[j] {
      var i :| 0 <= i < j && ids[..j][i] == y;
      assert ids[i] < ids[j];
    }
  }

  lemma GramBelow(before: set<(Gram, nat)>, postings: map<Gram, seq<nat>>, done: set<Gram>, g: Gram)
    requires g in postings && g !in done
    requires forall h: Gram, x: nat :: Posted(postings, h, x) ==> PostedBelow(before, h, x)
    ensures forall x :: x in postings[g] ==> PostedBelow(before + PairsOf(postings, done), g, x)
  {
    forall x | x in postings[g] ensures PostedBelow(before + PairsOf(postings, done), g, x) {
      assert Posted(postings, g, x);
    }
  }

  lemma PairsOfMore(before: set<(Gram, nat)>, postings: map<Gram, seq<nat>>, done: set<Gram>, g: Gram)
    requires g in postings
    ensures before + PairsOf(postings, done) + PairsFor(g, postings[g]) == before + PairsOf(postings, done + {g})
  {
    assert PairsOf(postings, done + {g}) == PairsOf(postings, done) + PairsFor(g, postings[g]);
  }

  function PairsOf(postings: map<Gram, seq<nat>>, grams: set<Gram>): set<(Gram, nat)> {
    set g: Gram, x: nat | g in grams && g in postings && x in postings[g] :: (g, x)
  }

  // ---------------------------------------------------------------- steps

  lemma PackGrows(added: seq<Doc>, d: Doc, batch: nat)
    ensures Pack(DocSizes(added + [d]), batch) == PackNext(Pack(DocSizes(added), batch), |added|, d.size, batch)
    ensures var starts := Pack(DocSizes(added), batch).starts; |starts| > 0 ==> starts[|starts| - 1] <= |added|
  {
    assert DocSizes(added + [d])[..|added|] == DocSizes(added);
    PackTiles(DocSizes(added), batch);
  }

  lemma PlaceAddsNoPairs(l: Layout, d: Doc, batch: nat)
    requires |l.writers| == |l.bases| && (|l.writers| > 0 ==> l.segmentIdx == |l.writers| - 1)
    requires NoPairs(l.writers)
    ensures NoPairs(PlaceNext(l, d, batch).writers)
  {
  }

  function NextStarts(l: Layout, starts: seq<nat>, n: nat, size: nat, batch: nat): seq<nat> {
    if NeedsNewSegment(l, size, batch) then starts + [n] else starts
  }

  lemma PlacesMore(l: Layout, starts: seq<nat>, added: seq<Doc>, start: nat, batch: nat, d: Doc)
    requires Places(l, starts, added, start, batch) && Below(added, d.id)
    ensures Places(PlaceNext(l, d, batch), NextStarts(l, starts, |added|, d.size, batch), added + [d], start, batch)
  {
    PackGrows(added, d, batch);
    WritersStep(l, starts, added, start, batch, d);
    TargetsStep(l, starts, added, start, batch, d);
    AscendMore(added, d);
  }

  lemma AscendMore(added: seq<Doc>, d: Doc)
    requires DocsAscend(added) && Below(added, d.id)
    ensures DocsAscend(added + [d])
  {
  }

  lemma PlacesStep(l: Layout, starts: seq<nat>, added: seq<Doc>, start: nat, batch: nat, d: Doc)
    requires Places(l, starts, added, start, batch) && Below(added, d.id) && NoPairs(l.writers)
    ensures Places(PlaceNext(l, d, batch), NextStarts(l, starts, |added|, d.size, batch), added + [d], start, batch)
    ensures NoPairs(PlaceNext(l, d, batch).writers)
  {
    PlacesMore(l, starts, added, start, batch, d);
    PlaceAddsNoPairs(l, d, batch);
  }

  lemma HoldsStill(w: Writer, base: nat, added: seq<Doc>, d: Doc, start: nat, lo: nat, hi: nat)
    requires WriterHolds(w, base, added, start, lo, hi)
    ensures WriterHolds(w, base, added + [d], start, lo, hi)
  {
  }

  lemma HoldsOneMore(w: Writer, base: nat, added: seq<Doc>, d: Doc, start: nat, lo: nat)
    requires WriterHolds(w, base, added, start, lo, |added|)
    ensures WriterHolds(w.AddDocument(start + |added|, d.path, d.hash, d.size), base, added + [d], start, lo,
                        |added| + 1)
  {
  }

  lemma WritersStep(l: Layout, starts: seq<nat>, added: seq<Doc>, start: nat, batch: nat, d: Doc)
    requires l.nextDocId == start + |added| && (|l.writers| > 0 ==> l.segmentIdx == |l.writers| - 1)
    requires WritersHold(l.writers, l.bases, starts, added, start)
    ensures var l' := PlaceNext(l, d, batch);
            WritersHold(l'.writers, l'.bases, NextStarts(l, starts, |added|, d.size, batch), added + [d], start)
  {
    var n, l' := |added|, PlaceNext(l, d, batch);
    var starts' := NextStarts(l, starts, n, d.size, batch);
    forall t | 0 <= t < |starts'|
      ensures WriterHolds(l'.writers[t], l'.bases[t], added + [d], start, starts'[t], EndOf(starts', t, n + 1))
    {
      if t < |starts'| - 1 {
        OtherWriterStays(l, starts, added, start, batch, d, t);
      } else {
        LastWriterGrows(l, starts, added, start, batch, d);
      }
    }
  }

  lemma OtherWriterStays(l: Layout, starts: seq<nat>, added: seq<Doc>, start: nat, batch: nat, d: Doc, t: nat)
    requires l.nextDocId == start + |added| && (|l.writers| > 0 ==> l.segmentIdx == |l.writers| - 1)
    requires WritersHold(l.writers, l.bases, starts, added, start)
    requires t < |NextStarts(l, starts, |added|, d.size, batch)| - 1
    ensures var l', starts' := PlaceNext(l, d, batch), NextStarts(l, starts, |added|, d.size, batch);
            WriterHolds(l'.writers[t], l'.bases[t], added + [d], start, starts'[t], EndOf(starts', t, |added| + 1))
  {
    HoldsStill(l.writers[t], l.bases[t], added, d, start, starts[t], EndOf(starts, t, |added|));
  }

  lemma LastWriterGrows(l: Layout, starts: seq<nat>, added: seq<Doc>, start: nat, batch: nat, d: Doc)
    requires l.nextDocId == start + |added| && (|l.writers| > 0 ==> l.segmentIdx == |l.writers| - 1)
    requires WritersHold(l.writers, l.bases, starts, added, start)
    ensures var l', starts' := PlaceNext(l, d, batch), NextStarts(l, starts, |added|, d.size, batch);
            var t := |starts'| - 1;
            && |l'.writers| == |l'.bases| == |starts'| && t >= 0
            && WriterHolds(l'.writers[t], l'.bases[t], added + [d], start, starts'[t], |added| + 1)
  {
    if NeedsNewSegment(l, d.size, batch) {
      HoldsOneMore(EmptyWriter, start + |added|, added, d, start, |added|);
    } else {
      var t := |starts| - 1;
      HoldsOneMore(l.writers[t], l.bases[t], added, d, start, starts[t]);
    }
  }

  lemma TargetsStep(l: Layout, starts: seq<nat>, added: seq<Doc>, start: nat, batch: nat, d: Doc)
    requires l.nextDocId == start + |added| && (|l.writers| > 0 ==> l.segmentIdx == |l.writers| - 1)
    requires |l.writers| == |l.bases| == |starts| && (|starts| > 0 ==> starts[|starts| - 1] <= |added|)
    requires TargetsExact(l.targetMap, starts, added, start)
    requires Below(added, d.id)
    ensures TargetsExact(PlaceNext(l, d, batch).targetMap, NextStarts(l, starts, |added|, d.size, batch), added + [d],
                         start)
  {
    var n, more, l' := |added|, added + [d], PlaceNext(l, d, batch);
    var starts' := NextStarts(l, starts, n, d.size, batch);
    assert more[..n] == added && more[n] == d;
    assert starts'[|starts'| - 1] <= n;
    forall k | 0 <= k < n + 1
      ensures more[k].id < |l'.targetMap| && l'.targetMap[more[k].id] == Some(Target(SegmentOf(starts', k), start + k))
    {
      if k < n {
        SegmentOfStays(starts, starts', n, k);
      }
    }
  }

  lemma SegmentOfStays(starts: seq<nat>, starts': seq<nat>, n: nat, k: nat)
    requires starts' == starts || starts' == starts + [n]
    requires k < n
    ensures SegmentOf(starts', k) == SegmentOf(starts, k)
  {
    if starts' != starts {
      assert starts'[..|starts'| - 1] == starts;
    }
  }

  lemma TargetOf(targetMap: seq<Option<Target>>, starts: seq<nat>, added: seq<Doc>, start: nat, batch: nat, x: nat)
    returns (k: nat)
    requires TargetsExact(targetMap, starts, added, start) && starts == Pack(DocSizes(added), batch).starts
    requires x < |targetMap| && targetMap[x].Some?
    ensures k < |added| && added[k].id == x && targetMap[x] == Some(Target(SegmentOf(starts, k), start + k))
    ensures SegmentOf(starts, k) < |starts|
  {
    k := FindOldId(added, x);
    PackTiles(DocSizes(added), batch);
    SegmentOfExact(starts, |added|, k);
  }

  function PostNext(writers: seq<Writer>, targetMap: seq<Option<Target>>, g: Gram, x: nat): seq<Writer> {
    if x < |targetMap| && targetMap[x].Some? && targetMap[x].value.segmentIdx < |writers| then
      var target := targetMap[x].value;
      writers[target.segmentIdx := writers[target.segmentIdx].AddGramPosting(g, target.globalDocId)]
    else writers
  }

  ghost predicate Posting(writers: seq<Writer>, bases: seq<nat>, starts: seq<nat>, added: seq<Doc>, start: nat,
                          posted: set<(Gram, nat)>)
  {
    && WritersHold(writers, bases, starts, added, start) && PairsExact(writers, starts, added, start, posted)
    && AllListsAscend(writers)
  }

  lemma PostStep(writers: seq<Writer>, bases: seq<nat>, targetMap: seq<Option<Target>>, starts: seq<nat>,
                 added: seq<Doc>, start: nat, batch: nat, posted: set<(Gram, nat)>, g: Gram, x: nat)
    requires Posting(writers, bases, starts, added, start, posted) && DocsAscend(added)
    requires TargetsExact(targetMap, starts, added, start) && starts == Pack(DocSizes(added), batch).starts
    requires PostedBelow(posted, g, x)
    ensures Posting(PostNext(writers, targetMap, g, x), bases, starts, added, start, posted + {(g, x)})
    ensures x < |targetMap| && targetMap[x].Some? ==> targetMap[x].value.segmentIdx < |writers|
  {
    if x < |targetMap| && targetMap[x].Some? {
      var k := TargetOf(targetMap, starts, added, start, batch, x);
      PostHit(writers, bases, starts, added, start, posted, g, k);
      HitIsNext(writers, targetMap, starts, start, g, x, k);
    } else {
      PairsMiss(writers, starts, added, start, posted, g, x);
    }
  }

  lemma HitIsNext(writers: seq<Writer>, targetMap: seq<Option<Target>>, starts: seq<nat>, start: nat, g: Gram, x: nat,
                  k: nat)
    requires x < |targetMap| && targetMap[x] == Some(Target(SegmentOf(starts, k), start + k))
    requires SegmentOf(starts, k) < |writers|
    ensures var t := SegmentOf(starts, k);
            PostNext(writers, targetMap, g, x) == writers[t := writers[t].AddGramPosting(g, start + k)]
  {
  }

  lemma PostHit(writers: seq<Writer>, bases: seq<nat>, starts: seq<nat>, added: seq<Doc>, start: nat,
                posted: set<(Gram, nat)>, g: Gram, k: nat)
    requires Posting(writers, bases, starts, added, start, posted) && DocsAscend(added)
    requires k < |added| && SegmentOf(starts, k) < |writers| && PostedBelow(posted, g, added[k].id)
    ensures var t := SegmentOf(starts, k); var writers' := writers[t := writers[t].AddGramPosting(g, start + k)];
            Posting(writers', bases, starts, added, start, posted + {(g, added[k].id)})
  {
    var t := SegmentOf(starts, k);
    var writers' := writers[t := writers[t].AddGramPosting(g, start + k)];
    AscendStep(writers[t].pairs, starts, added, start, posted, t, g, k);
    PairsHit(writers, starts, added, start, posted, g, k, writers');
    forall u | 0 <= u < |writers'|
      ensures WriterHolds(writers'[u], bases[u], added, start, starts[u], EndOf(starts, u, |added|))
    {
      assert WriterHolds(writers[u], bases[u], added, start, starts[u], EndOf(starts, u, |added|));
    }
  }

  // Postings of a gram seen so far name older ids, so newer ones go at the end.
  lemma AscendStep(pairs: seq<(Gram, nat)>, starts: seq<nat>, added: seq<Doc>, start: nat, posted: set<(Gram, nat)>,
                   t: nat, g: Gram, k: nat)
    requires ListsAscend(pairs) && DocsAscend(added) && k < |added|
    requires forall h: Gram, n: nat :: (h, n) in pairs <==> Remapped(starts, added, start, posted, t, h, n)
    requires PostedBelow(posted, g, added[k].id)
    ensures ListsAscend(pairs + [(g, start + k)])
  {
    forall i | 0 <= i < |pairs| && pairs[i].0 == g ensures pairs[i].1 < start + k {
      assert (g, pairs[i].1) in pairs;
      assert Remapped(starts, added, start, posted, t, g, pairs[i].1);
    }
  }

  lemma PairsHit(writers: seq<Writer>, starts: seq<nat>, added: seq<Doc>, start: nat, posted: set<(Gram, nat)>, g: Gram,
                 k: nat, writers': seq<Writer>)
    requires PairsExact(writers, starts, added, start, posted) && DocsAscend(added)
    requires k < |added| && SegmentOf(starts, k) < |writers|
    requires var t := SegmentOf(starts, k); writers' == writers[t := writers[t].AddGramPosting(g, start + k)]
    ensures PairsExact(writers', starts, added, start, posted + {(g, added[k].id)})
  {
    var t := SegmentOf(starts, k);
    var more := posted + {(g, added[k].id)};
    forall u, h: Gram, n: nat | 0 <= u < |writers'|
      ensures (h, n) in writers'[u].pairs <==> Remapped(starts, added, start, more, u, h, n)
    {
      assert (h, n) in writers[u].pairs <==> Remapped(starts, added, start, posted, u, h, n);
      if Remapped(starts, added, start, more, u, h, n) && !Remapped(starts, added, start, posted, u, h, n) {
        assert h == g && added[n - start].id == added[k].id;
        assert n - start == k;
      }
    }
  }

  lemma PairsMiss(writers: seq<Writer>, starts: seq<nat>, added: seq<Doc>, start: nat, posted: set<(Gram, nat)>,
                  g: Gram, x: nat)
    requires PairsExact(writers, starts, added, start, posted)
    requires forall k :: 0 <= k < |added| ==> added[k].id != x
    ensures PairsExact(writers, starts, added, start, posted + {(g, x)})
  {
    forall u, h: Gram, n: nat | 0 <= u < |writers|
      ensures (h, n) in writers[u].pairs <==> Remapped(starts, added, start, posted + {(g, x)}, u, h, n)
    {
      assert (h, n) in writers[u].pairs <==> Remapped(starts, added, start, posted, u, h, n);
    }
  }
}
