// Rebuilding the overlay at a commit (overlay/build.rs): a full path, and a
// delta path that patches the previous gram index in place.
module Overlays {
  import opened Common
  import opened Snapshots

  datatype NewFile = NewFile(path: Path, content: Content)

  // ---------------------------------------------------------------- specification

  // Documents carried forward: those whose path is not in `drop`.
  function Kept(docs: seq<OverlayDoc>, drop: set<Path>): seq<OverlayDoc> {
    if |docs| == 0 then []
    else
      var last := docs[|docs| - 1];
      Kept(docs[..|docs| - 1], drop) + if last.path in drop then [] else [last]
  }

  function NewDoc(lx: Lexer, f: NewFile, id: nat): OverlayDoc {
    OverlayDoc(id, f.path, f.content, lx.grams(f.content))
  }

  function Numbered(lx: Lexer, files: seq<NewFile>, start: nat): (docs: seq<OverlayDoc>)
    ensures |docs| == |files|
    ensures forall i :: 0 <= i < |docs| ==> docs[i] == NewDoc(lx, files[i], start + i)
  {
    seq(|files|, i requires 0 <= i < |files| => NewDoc(lx, files[i], start + i))
  }

  function Renumbered(docs: seq<OverlayDoc>, start: nat): (r: seq<OverlayDoc>)
    ensures |r| == |docs|
    ensures forall i :: 0 <= i < |r| ==> r[i] == docs[i].(id := start + i)
  {
    seq(|docs|, i requires 0 <= i < |docs| => docs[i].(id := start + i))
  }

  // The documents of the next overlay. On the delta path carried documents
  // keep their ids and new ones are numbered from `nextId`; otherwise all are
  // numbered afresh from `limit`.
  function NextDocs(lx: Lexer, limit: nat, prev: Overlay, files: seq<NewFile>, drop: set<Path>): seq<OverlayDoc> {
    var kept := Kept(prev.docs, drop);
    if limit == prev.baseCount then kept + Numbered(lx, files, prev.nextId)
    else Renumbered(kept, limit) + Numbered(lx, files, limit + |kept|)
  }

  function NextDocId(limit: nat, prev: Overlay, files: seq<NewFile>, drop: set<Path>): nat {
    if limit == prev.baseCount then prev.nextId + |files|
    else limit + |Kept(prev.docs, drop)| + |files|
  }

  lemma {:induction false} KeptMember(docs: seq<OverlayDoc>, drop: set<Path>)
    ensures forall d :: d in Kept(docs, drop) <==> d in docs && d.path !in drop
  {
    if |docs| != 0 {
      var init := docs[..|docs| - 1];
      assert docs == init + [docs[|docs| - 1]];
      KeptMember(init, drop);
    }
  }

  ghost predicate IdsAscending(docs: seq<OverlayDoc>) {
    forall i, j :: 0 <= i < j < |docs| ==> docs[i].id < docs[j].id
  }

  lemma {:induction false} KeptAscends(docs: seq<OverlayDoc>, drop: set<Path>)
    requires IdsAscending(docs)
    ensures IdsAscending(Kept(docs, drop))
  {
    if |docs| != 0 {
      var init := docs[..|docs| - 1];
      var k := Kept(init, drop);
      KeptAscends(init, drop);
      KeptMember(init, drop);
      forall i | 0 <= i < |k| ensures k[i].id < docs[|docs| - 1].id {
        assert k[i] in k;
        var j :| 0 <= j < |init| && init[j] == k[i];
        assert docs[j].id < docs[|docs| - 1].id;
      }
    }
  }

  // ---------------------------------------------------------------- patching a gram index

  function Without(ids: seq<nat>, x: nat): (r: seq<nat>)
    requires Ascending(ids)
    ensures Ascending(r)
    ensures forall y :: y in r <==> y in ids && y != x
  {
    if |ids| == 0 then []
    else
      var init, last := ids[..|ids| - 1], ids[|ids| - 1];
      BelowLast(ids, init, last);
      var r := Without(init, x);
      AscendingSnoc(r, last);
      if last == x then r else r + [last]
  }

  ghost predicate AllAscending(index: map<Gram, seq<nat>>) {
    forall g :: g in index ==> Ascending(index[g])
  }

  // Take one document out of the posting lists of its grams.
  function Unpost(index: map<Gram, seq<nat>>, d: OverlayDoc): (r: map<Gram, seq<nat>>)
    requires AllAscending(index)
    ensures AllAscending(r)
    ensures forall g, x :: Posted(r, g, x) <==> Posted(index, g, x) && !(g in d.grams && x == d.id)
  {
    map g | g in index :: if g in d.grams then Without(index[g], d.id) else index[g]
  }

  // Append one document to the posting lists of its grams.
  function PostedList(index: map<Gram, seq<nat>>, d: OverlayDoc, g: Gram): seq<nat> {
    (if g in index then index[g] else []) + (if g in d.grams then [d.id] else [])
  }

  function Post(index: map<Gram, seq<nat>>, d: OverlayDoc): map<Gram, seq<nat>> {
    map g | g in index.Keys + d.grams :: PostedList(index, d, g)
  }

  lemma PostedListAscends(index: map<Gram, seq<nat>>, d: OverlayDoc, g: Gram)
    requires AllAscending(index)
    requires forall x: nat :: Posted(index, g, x) ==> x < d.id
    ensures Ascending(PostedList(index, d, g))
  {
    if g in index && g in d.grams {
      forall x | x in index[g] ensures x < d.id {
        assert Posted(index, g, x);
      }
      AscendingSnoc(index[g], d.id);
    } else if g in index {
      assert PostedList(index, d, g) == index[g];
    }
  }

  lemma PostIsExact(index: map<Gram, seq<nat>>, d: OverlayDoc)
    requires AllAscending(index)
    requires forall g, x: nat :: Posted(index, g, x) ==> x < d.id
    ensures AllAscending(Post(index, d))
    ensures forall g, x :: Posted(Post(index, d), g, x) <==> Posted(index, g, x) || (g in d.grams && x == d.id)
    ensures (forall g :: g in index ==> index[g] != []) ==> forall g :: g in Post(index, d) ==> Post(index, d)[g] != []
  {
    forall g | g in Post(index, d) ensures Ascending(Post(index, d)[g]) {
      PostedListAscends(index, d, g);
    }
  }

  // Drop the posting lists that became empty.
  function Retain(index: map<Gram, seq<nat>>): (r: map<Gram, seq<nat>>)
    requires AllAscending(index)
    ensures AllAscending(r)
    ensures forall g :: g in r ==> r[g] != []
    ensures forall g, x :: Posted(r, g, x) <==> Posted(index, g, x)
  {
    map g | g in index && index[g] != [] :: index[g]
  }

  // Appending a document above all others extends the index it has.
  lemma PostExtends(index: map<Gram, seq<nat>>, docs: seq<OverlayDoc>, d: OverlayDoc)
    requires Indexes(index, docs)
    requires forall i :: 0 <= i < |docs| ==> docs[i].id < d.id
    ensures forall g, x: nat :: Posted(index, g, x) ==> x < d.id
    ensures Indexes(Post(index, d), docs + [d])
  {
    forall g, x: nat | Posted(index, g, x) ensures x < d.id {
      assert Holds(docs, g, x);
    }
    PostIsExact(index, d);
    var more := docs + [d];
    forall g, x ensures Posted(Post(index, d), g, x) <==> Holds(more, g, x) {
      if Holds(docs, g, x) {
        var i :| 0 <= i < |docs| && docs[i].id == x && g in docs[i].grams;
        assert more[i] == docs[i];
      }
      if g in d.grams && x == d.id {
        assert more[|docs|] == d;
      }
      if Holds(more, g, x) {
        var i :| 0 <= i < |more| && more[i].id == x && g in more[i].grams;
        assert i < |docs| ==> docs[i] == more[i];
      }
    }
  }

  lemma AppendOk(lx: Lexer, ov: Overlay, d: OverlayDoc)
    requires OverlayOk(lx, ov) && d.id == ov.nextId && ov.nextId + 1 <= U32_MAX
    requires d.grams == lx.grams(d.content)
    ensures forall g, x: nat :: Posted(ov.gramIndex, g, x) ==> x < d.id
    ensures OverlayOk(lx, Overlay(ov.docs + [d], Post(ov.gramIndex, d), ov.nextId + 1, ov.baseCount))
  {
    PostExtends(ov.gramIndex, ov.docs, d);
  }

  ghost function DroppedIds(docs: seq<OverlayDoc>, drop: set<Path>, n: nat): set<nat>
    requires n <= |docs|
  {
    set k | 0 <= k < n && docs[k].path in drop :: docs[k].id
  }

  // What is left after unposting every dropped document indexes the kept ones.
  lemma StripExact(docs: seq<OverlayDoc>, drop: set<Path>, g: Gram, x: nat)
    requires IdsAscending(docs)
    ensures Holds(docs, g, x) && x !in DroppedIds(docs, drop, |docs|) <==> Holds(Kept(docs, drop), g, x)
  {
    KeptMember(docs, drop);
    var kept := Kept(docs, drop);
    if Holds(docs, g, x) && x !in DroppedIds(docs, drop, |docs|) {
      var i :| 0 <= i < |docs| && docs[i].id == x && g in docs[i].grams;
      assert docs[i] in kept;
    }
    if Holds(kept, g, x) {
      var i :| 0 <= i < |kept| && kept[i].id == x && g in kept[i].grams;
      assert kept[i] in kept;
      var j :| 0 <= j < |docs| && docs[j] == kept[i];
    }
  }

  // ---------------------------------------------------------------- the two paths

  // The delta path (overlay/build.rs:192-269).
  method BuildDelta(lx: Lexer, prev: Overlay, files: seq<NewFile>, drop: set<Path>) returns (r: Result<Overlay>)
    requires OverlayOk(lx, prev)
    ensures r.Ok? <==> prev.nextId + |files| <= U32_MAX
    ensures r.Err? ==> r.error == DocIdOverflow
    ensures r.Ok? ==> OverlayOk(lx, r.value) && r.value.baseCount == prev.baseCount
    ensures r.Ok? ==> r.value.docs == NextDocs(lx, prev.baseCount, prev, files, drop)
    ensures r.Ok? ==> r.value.nextId == prev.nextId + |files|
  {
    var index := prev.gramIndex;
    for i := 0 to |prev.docs|
      invariant AllAscending(index)
      invariant forall g, x :: Posted(index, g, x) <==> Holds(prev.docs, g, x) && x !in DroppedIds(prev.docs, drop, i)
    {
      ghost var before := index;
      var d := prev.docs[i];
      if d.path in drop {
        index := Unpost(index, d);
      }
      forall g, x ensures Posted(index, g, x) <==> Holds(prev.docs, g, x) && x !in DroppedIds(prev.docs, drop, i + 1) {
        assert DroppedIds(prev.docs, drop, i + 1)
            == DroppedIds(prev.docs, drop, i) + if d.path in drop then {d.id} else {};
        if Posted(before, g, x) && x == d.id {
          var k :| 0 <= k < |prev.docs| && prev.docs[k].id == x && g in prev.docs[k].grams;
          assert k == i;
        }
      }
    }
    index := Retain(index);
    var docs := Kept(prev.docs, drop);
    forall g, x ensures Posted(index, g, x) <==> Holds(docs, g, x) {
      StripExact(prev.docs, drop, g, x);
    }
    KeptMember(prev.docs, drop);
    KeptAscends(prev.docs, drop);
    assert forall i :: 0 <= i < |docs| ==> docs[i] in docs;
    r := AppendNew(lx, Overlay(docs, index, prev.nextId, prev.baseCount), files);
  }

  // New and changed files get fresh ids from `nextId` on; shared by both paths.
  method AppendNew(lx: Lexer, carried: Overlay, files: seq<NewFile>) returns (r: Result<Overlay>)
    requires OverlayOk(lx, carried)
    ensures r.Ok? <==> carried.nextId + |files| <= U32_MAX
    ensures r.Err? ==> r.error == DocIdOverflow
    ensures r.Ok? ==> OverlayOk(lx, r.value) && r.value.baseCount == carried.baseCount
    ensures r.Ok? ==> r.value.docs == carried.docs + Numbered(lx, files, carried.nextId)
    ensures r.Ok? ==> r.value.nextId == carried.nextId + |files|
  {
    var docs, index, nextId := carried.docs, carried.gramIndex, carried.nextId;
    for j := 0 to |files|
      invariant docs == carried.docs + Numbered(lx, files, carried.nextId)[..j]
      invariant nextId == carried.nextId + j
      invariant OverlayOk(lx, Overlay(docs, index, nextId, carried.baseCount))
    {
      if nextId + 1 > U32_MAX {
        return Err(DocIdOverflow);
      }
      var d := NewDoc(lx, files[j], nextId);
      assert d == Numbered(lx, files, carried.nextId)[j];
      AppendOk(lx, Overlay(docs, index, nextId, carried.baseCount), d);
      index := Post(index, d);
      docs := docs + [d];
      nextId := nextId + 1;
    }
    r := Ok(Overlay(docs, index, nextId, carried.baseCount));
  }

  lemma KeptGrams(lx: Lexer, ov: Overlay, drop: set<Path>)
    requires OverlayOk(lx, ov)
    ensures forall i :: 0 <= i < |Kept(ov.docs, drop)| ==>
              Kept(ov.docs, drop)[i].grams == lx.grams(Kept(ov.docs, drop)[i].content)
  {
    var kept := Kept(ov.docs, drop);
    KeptMember(ov.docs, drop);
    forall i | 0 <= i < |kept| ensures kept[i].grams == lx.grams(kept[i].content) {
      assert kept[i] in kept;
    }
  }

  // The full path (overlay/build.rs:108-169): every document renumbered.
  method BuildFull(lx: Lexer, limit: nat, prev: Overlay, files: seq<NewFile>, drop: set<Path>)
    returns (r: Result<Overlay>)
    requires OverlayOk(lx, prev) && limit <= U32_MAX
    ensures r.Ok? <==> limit + |Kept(prev.docs, drop)| + |files| <= U32_MAX
    ensures r.Err? ==> r.error == DocIdOverflow
    ensures r.Ok? ==> OverlayOk(lx, r.value) && r.value.baseCount == limit
    ensures r.Ok? ==>
              var kept := Kept(prev.docs, drop);
              r.value.docs == Renumbered(kept, limit) + Numbered(lx, files, limit + |kept|)
    ensures r.Ok? ==> r.value.nextId == limit + |Kept(prev.docs, drop)| + |files|
  {
    var kept := Kept(prev.docs, drop);
    KeptGrams(lx, prev, drop);
    var docs: seq<OverlayDoc>, index: map<Gram, seq<nat>>, nextId := [], map[], limit;
    for i := 0 to |kept|
      invariant docs == Renumbered(kept, limit)[..i]
      invariant nextId == limit + i
      invariant OverlayOk(lx, Overlay(docs, index, nextId, limit))
    {
      if nextId + 1 > U32_MAX {
        return Err(DocIdOverflow);
      }
      var d := kept[i].(id := nextId);
      assert d == Renumbered(kept, limit)[i];
      AppendOk(lx, Overlay(docs, index, nextId, limit), d);
      index := Post(index, d);
      docs := docs + [d];
      nextId := nextId + 1;
    }
    r := AppendNew(lx, Overlay(docs, index, nextId, limit), files);
  }

  // overlay/build.rs:89-106. Either way the new overlay is well formed: its
  // gram index, patched or rebuilt, is exactly the index of its documents.
  method BuildIncremental(lx: Lexer, limit: nat, prev: Overlay, files: seq<NewFile>, changed: set<Path>,
                          removed: set<Path>)
    returns (r: Result<Overlay>)
    requires OverlayOk(lx, prev) && limit <= U32_MAX
    ensures r.Ok? <==> NextDocId(limit, prev, files, changed + removed) <= U32_MAX
    ensures r.Err? ==> r.error == DocIdOverflow
    ensures r.Ok? ==> OverlayWF(lx, r.value, limit) && r.value.baseCount == limit
    ensures r.Ok? ==> r.value.docs == NextDocs(lx, limit, prev, files, changed + removed)
    ensures r.Ok? ==> r.value.nextId == NextDocId(limit, prev, files, changed + removed)
  {
    if limit == prev.baseCount {
      r := BuildDelta(lx, prev, files, changed + removed);
    } else {
      r := BuildFull(lx, limit, prev, files, changed + removed);
    }
  }

  // ---------------------------------------------------------------- when ids stay consecutive

  ghost predicate Consecutive(docs: seq<OverlayDoc>) {
    forall i :: 0 <= i < |docs| ==> docs[i].id == docs[0].id + i
  }

  // Consecutive up to the next id to be handed out.
  ghost predicate Gapless(docs: seq<OverlayDoc>, nextId: nat) {
    Consecutive(docs) && (docs != [] ==> docs[|docs| - 1].id + 1 == nextId)
  }

  // The dropped documents are the oldest ones.
  ghost predicate DropsPrefix(docs: seq<OverlayDoc>, drop: set<Path>) {
    forall i, j :: 0 <= i < j < |docs| && docs[j].path in drop ==> docs[i].path in drop
  }

  // No gap lies between a document that stays and `nextId`.
  ghost predicate TailIsDense(docs: seq<OverlayDoc>, drop: set<Path>, nextId: nat) {
    forall i :: 0 <= i < |docs| && docs[i].path !in drop ==> docs[i].id + (|docs| - i) == nextId
  }

  // Between two documents that stay there is neither a document that goes nor
  // a gap.
  ghost predicate StaysTogether(docs: seq<OverlayDoc>, drop: set<Path>) {
    && (forall i, k, j :: 0 <= i < k < j < |docs| && docs[i].path !in drop && docs[j].path !in drop ==>
          docs[k].path !in drop)
    && (forall i, j :: 0 <= i < j < |docs| && docs[i].path !in drop && docs[j].path !in drop ==>
          docs[j].id == docs[i].id + (j - i))
  }

  lemma {:induction false} KeptAppend(a: seq<OverlayDoc>, b: seq<OverlayDoc>, drop: set<Path>)
    ensures Kept(a + b, drop) == Kept(a, drop) + Kept(b, drop)
    decreases |b|
  {
    if |b| == 0 {
      assert a + b == a;
    } else {
      var n := |b| - 1;
      KeptAppend(a, b[..n], drop);
      assert (a + b)[..|a + b| - 1] == a + b[..n];
      ConcatAssoc(Kept(a, drop), Kept(b[..n], drop), if b[n].path in drop then [] else [b[n]]);
    }
  }

  // All of them stay exactly when none is dropped.
  lemma {:induction false} KeptLength(docs: seq<OverlayDoc>, drop: set<Path>)
    ensures |Kept(docs, drop)| <= |docs|
    ensures |Kept(docs, drop)| == |docs| <==> forall i :: 0 <= i < |docs| ==> docs[i].path !in drop
    ensures |Kept(docs, drop)| == |docs| ==> Kept(docs, drop) == docs
  {
    if |docs| != 0 {
      KeptLength(docs[..|docs| - 1], drop);
    }
  }

  lemma {:induction false} KeptNone(docs: seq<OverlayDoc>, drop: set<Path>)
    requires forall i :: 0 <= i < |docs| ==> docs[i].path in drop
    ensures Kept(docs, drop) == []
  {
    if |docs| != 0 {
      KeptNone(docs[..|docs| - 1], drop);
    }
  }

  // Cutting at `i`: what stays of each part.
  lemma KeptSplit(docs: seq<OverlayDoc>, drop: set<Path>, i: nat)
    requires i <= |docs|
    ensures Kept(docs, drop) == Kept(docs[..i], drop) + Kept(docs[i..], drop)
  {
    KeptAppend(docs[..i], docs[i..], drop);
    assert docs == docs[..i] + docs[i..];
  }

  // A document that stays comes first among those that stay from it on.
  lemma KeptFirst(docs: seq<OverlayDoc>, drop: set<Path>)
    requires |docs| > 0 && docs[0].path !in drop
    ensures |Kept(docs, drop)| > 0 && Kept(docs, drop)[0] == docs[0]
  {
    KeptSplit(docs, drop, 1);
    KeptLength(docs[..1], drop);
  }

  lemma KeptLast(docs: seq<OverlayDoc>, drop: set<Path>)
    requires |docs| > 0 && docs[|docs| - 1].path !in drop
    ensures |Kept(docs, drop)| > 0 && Kept(docs, drop)[|Kept(docs, drop)| - 1] == docs[|docs| - 1]
  {
  }

  // Ascending ids leave at least the distance in places.
  lemma {:induction false} IdsSpread(docs: seq<OverlayDoc>, i: nat, j: nat)
    requires IdsAscending(docs) && i <= j < |docs|
    ensures docs[i].id + (j - i) <= docs[j].id
    decreases j
  {
    if i < j {
      IdsSpread(docs, i, j - 1);
    }
  }

  // What stays is consecutive up to `nextId` exactly when the dropped
  // documents are the oldest and nothing is missing after them.
  lemma KeptGapless(docs: seq<OverlayDoc>, drop: set<Path>, nextId: nat)
    requires IdsAscending(docs) && forall i :: 0 <= i < |docs| ==> docs[i].id < nextId
    ensures Gapless(Kept(docs, drop), nextId) <==> DropsPrefix(docs, drop) && TailIsDense(docs, drop, nextId)
  {
    if Gapless(Kept(docs, drop), nextId) {
      forall i | 0 <= i < |docs| && docs[i].path !in drop
        ensures docs[i].id + (|docs| - i) == nextId && forall j :: i < j < |docs| ==> docs[j].path !in drop
      {
        GaplessFrom(docs, drop, nextId, i);
      }
    }
    if DropsPrefix(docs, drop) && TailIsDense(docs, drop, nextId) {
      DenseIsGapless(docs, drop, nextId);
    }
  }

  lemma GaplessFrom(docs: seq<OverlayDoc>, drop: set<Path>, nextId: nat, i: nat)
    requires IdsAscending(docs) && forall k :: 0 <= k < |docs| ==> docs[k].id < nextId
    requires Gapless(Kept(docs, drop), nextId) && i < |docs| && docs[i].path !in drop
    ensures docs[i].id + (|docs| - i) == nextId && forall j :: i < j < |docs| ==> docs[j].path !in drop
  {
    var kept, before, rest := Kept(docs, drop), Kept(docs[..i], drop), Kept(docs[i..], drop);
    KeptSplit(docs, drop, i);
    KeptFirst(docs[i..], drop);
    KeptLength(docs[i..], drop);
    IdsSpread(docs, i, |docs| - 1);
    assert kept[|before|] == docs[i];
    assert kept[|kept| - 1].id == kept[|before|].id + (|rest| - 1);
    forall j | i < j < |docs| ensures docs[j].path !in drop {
      assert docs[i..][j - i].path !in drop;
    }
  }

  lemma {:induction false} KeptSuffix(docs: seq<OverlayDoc>, drop: set<Path>)
    requires DropsPrefix(docs, drop)
    ensures |Kept(docs, drop)| <= |docs| && Kept(docs, drop) == docs[|docs| - |Kept(docs, drop)|..]
  {
    if |docs| != 0 {
      var init, last := docs[..|docs| - 1], docs[|docs| - 1];
      if last.path in drop {
        KeptNone(docs, drop);
      } else {
        KeptSuffix(init, drop);
        var n := |Kept(init, drop)|;
        assert docs[|docs| - (n + 1)..] == init[|init| - n..] + [last];
      }
    }
  }

  lemma DenseIsGapless(docs: seq<OverlayDoc>, drop: set<Path>, nextId: nat)
    requires DropsPrefix(docs, drop) && TailIsDense(docs, drop, nextId)
    ensures Gapless(Kept(docs, drop), nextId)
  {
    var kept := Kept(docs, drop);
    KeptSuffix(docs, drop);
    KeptMember(docs, drop);
    forall c | 0 <= c < |kept| ensures kept[c].id + (|kept| - c) == nextId {
      assert kept[c] in kept;
      assert kept[c] == docs[|docs| - |kept| + c];
    }
  }

  // Documents appended from `nextId` on change nothing about gaps.
  lemma NumberedGapless(lx: Lexer, kept: seq<OverlayDoc>, files: seq<NewFile>, nextId: nat)
    requires forall i :: 0 <= i < |kept| ==> kept[i].id < nextId
    ensures Gapless(kept + Numbered(lx, files, nextId), nextId + |files|) <==> Gapless(kept, nextId)
    ensures |files| > 0 ==> (Consecutive(kept + Numbered(lx, files, nextId)) <==> Gapless(kept, nextId))
  {
    var docs := kept + Numbered(lx, files, nextId);
    if |files| > 0 {
      assert docs[|kept|].id == nextId && docs[|docs| - 1].id + 1 == nextId + |files|;
      if Consecutive(docs) {
        assert forall i :: 0 <= i < |kept| ==> docs[i] == kept[i];
        assert |kept| > 0 ==> docs[|kept|].id == docs[0].id + |kept|;
      }
    } else {
      assert docs == kept;
    }
    if Gapless(kept, nextId) {
      assert forall i :: 0 <= i < |docs| ==> docs[i].id == docs[0].id + i;
    }
  }

  // On the delta path, from any overlay, with gaps or without, and for any
  // files, none included: the next overlay is free of gaps exactly when the
  // dropped documents are the oldest and no gap lies after them. With a file
  // added, that is also when its ids are consecutive.
  lemma DeltaGapless(lx: Lexer, prev: Overlay, files: seq<NewFile>, drop: set<Path>)
    requires OverlayOk(lx, prev)
    ensures var next := NextDocs(lx, prev.baseCount, prev, files, drop);
            && (Gapless(next, prev.nextId + |files|)
                <==> DropsPrefix(prev.docs, drop) && TailIsDense(prev.docs, drop, prev.nextId))
            && (|files| > 0 ==> (Consecutive(next) <==> Gapless(next, prev.nextId + |files|)))
  {
    var kept := Kept(prev.docs, drop);
    KeptMember(prev.docs, drop);
    forall i | 0 <= i < |kept| ensures kept[i].id < prev.nextId {
      assert kept[i] in kept;
    }
    NumberedGapless(lx, kept, files, prev.nextId);
    KeptGapless(prev.docs, drop, prev.nextId);
  }

  // From an overlay without gaps: exactly when the documents replaced or
  // removed are its oldest ones.
  lemma DeltaStaysConsecutive(lx: Lexer, prev: Overlay, files: seq<NewFile>, drop: set<Path>)
    requires OverlayOk(lx, prev) && Gapless(prev.docs, prev.nextId)
    ensures var next := NextDocs(lx, prev.baseCount, prev, files, drop);
            && (Gapless(next, prev.nextId + |files|) <==> DropsPrefix(prev.docs, drop))
            && (|files| > 0 ==> (Consecutive(next) <==> DropsPrefix(prev.docs, drop)))
  {
    DeltaGapless(lx, prev, files, drop);
  }

  // With nothing added, what is left can be flushed even short of `nextId`:
  // exactly when it stays together.
  lemma {:induction false} DeletionStaysConsecutive(docs: seq<OverlayDoc>, drop: set<Path>)
    requires IdsAscending(docs)
    ensures Consecutive(Kept(docs, drop)) <==> StaysTogether(docs, drop)
  {
    if Consecutive(Kept(docs, drop)) {
      forall i, j | 0 <= i < j < |docs| && docs[i].path !in drop && docs[j].path !in drop
        ensures docs[j].id == docs[i].id + (j - i) && forall k :: i < k < j ==> docs[k].path !in drop
      {
        RunStaysTogether(docs, drop, i, j);
      }
    }
    if StaysTogether(docs, drop) {
      TogetherIsConsecutive(docs, drop);
    }
  }

  lemma ConsecutivePart(a: seq<OverlayDoc>, b: seq<OverlayDoc>, c: seq<OverlayDoc>)
    requires Consecutive(a + b + c) && |b| > 0
    ensures b[|b| - 1].id == b[0].id + (|b| - 1)
  {
    var docs := a + b + c;
    assert docs[|a|] == b[0] && docs[|a| + (|b| - 1)] == b[|b| - 1];
  }

  lemma KeptMiddle(docs: seq<OverlayDoc>, drop: set<Path>, i: nat, j: nat)
    requires i <= j <= |docs|
    ensures Kept(docs, drop) == Kept(docs[..i], drop) + Kept(docs[i..j], drop) + Kept(docs[j..], drop)
  {
    KeptSplit(docs, drop, j);
    KeptSplit(docs[..j], drop, i);
    assert docs[..j][..i] == docs[..i] && docs[..j][i..] == docs[i..j];
  }

  // If what stays of `mid` has no gap between its two ends, all of it stays.
  lemma MiddleIsDense(mid: seq<OverlayDoc>, drop: set<Path>)
    requires IdsAscending(mid) && |mid| > 0 && mid[0].path !in drop && mid[|mid| - 1].path !in drop
    requires var kept := Kept(mid, drop); |kept| > 0 && kept[|kept| - 1].id == kept[0].id + (|kept| - 1)
    ensures mid[|mid| - 1].id == mid[0].id + (|mid| - 1) && forall k :: 0 <= k < |mid| ==> mid[k].path !in drop
  {
    KeptFirst(mid, drop);
    KeptLast(mid, drop);
    KeptLength(mid, drop);
    IdsSpread(mid, 0, |mid| - 1);
  }

  lemma RunStaysTogether(docs: seq<OverlayDoc>, drop: set<Path>, i: nat, j: nat)
    requires IdsAscending(docs) && Consecutive(Kept(docs, drop))
    requires i < j < |docs| && docs[i].path !in drop && docs[j].path !in drop
    ensures docs[j].id == docs[i].id + (j - i) && forall k :: i < k < j ==> docs[k].path !in drop
  {
    var mid := docs[i..j + 1];
    MiddleSpread(docs, drop, i, j);
    MiddleIsDense(mid, drop);
    forall k | i < k < j ensures docs[k].path !in drop {
      assert mid[k - i] == docs[k];
    }
  }

  lemma MiddleSpread(docs: seq<OverlayDoc>, drop: set<Path>, i: nat, j: nat)
    requires Consecutive(Kept(docs, drop)) && i < j < |docs| && docs[i].path !in drop
    ensures var kept := Kept(docs[i..j + 1], drop); |kept| > 0 && kept[|kept| - 1].id == kept[0].id + (|kept| - 1)
  {
    KeptMiddle(docs, drop, i, j + 1);
    KeptFirst(docs[i..j + 1], drop);
    ConsecutivePart(Kept(docs[..i], drop), Kept(docs[i..j + 1], drop), Kept(docs[j + 1..], drop));
  }

  lemma {:induction false} TogetherIsConsecutive(docs: seq<OverlayDoc>, drop: set<Path>)
    requires StaysTogether(docs, drop)
    ensures Consecutive(Kept(docs, drop))
  {
    if |docs| != 0 {
      var init, last := docs[..|docs| - 1], docs[|docs| - 1];
      TogetherPrefix(docs, drop);
      TogetherIsConsecutive(init, drop);
      if last.path !in drop && Kept(init, drop) != [] {
        LastTogether(docs, drop);
        ConsecutiveSnoc(Kept(init, drop), last);
      }
    }
  }

  lemma TogetherPrefix(docs: seq<OverlayDoc>, drop: set<Path>)
    requires StaysTogether(docs, drop) && |docs| > 0
    ensures StaysTogether(docs[..|docs| - 1], drop)
  {
  }

  lemma LastTogether(docs: seq<OverlayDoc>, drop: set<Path>)
    requires StaysTogether(docs, drop) && |docs| > 0 && docs[|docs| - 1].path !in drop
    requires Kept(docs[..|docs| - 1], drop) != []
    ensures var kept := Kept(docs[..|docs| - 1], drop); docs[|docs| - 1].id == kept[|kept| - 1].id + 1
  {
    var n := |docs| - 1;
    var init := docs[..n];
    var kept := Kept(init, drop);
    KeptMember(init, drop);
    assert kept[0] in kept;
    var m :| 0 <= m < n && init[m] == kept[0];
    assert docs[m].path !in drop;
    assert docs[n - 1].path !in drop;
    KeptLast(init, drop);
  }

  lemma ConsecutiveSnoc(docs: seq<OverlayDoc>, d: OverlayDoc)
    requires Consecutive(docs) && |docs| > 0 && d.id == docs[|docs| - 1].id + 1
    ensures Consecutive(docs + [d])
  {
  }

  // The full path leaves no gaps.
  lemma FullIsGapless(lx: Lexer, limit: nat, prev: Overlay, files: seq<NewFile>, drop: set<Path>)
    requires limit != prev.baseCount
    ensures Gapless(NextDocs(lx, limit, prev, files, drop), NextDocId(limit, prev, files, drop))
  {
    var next := NextDocs(lx, limit, prev, files, drop);
    assert forall i :: 0 <= i < |next| ==> next[i].id == limit + i;
  }
}
