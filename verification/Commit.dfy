// Committing pending edits into a new overlay and delete-set (commit.rs).
module Commit {
  import opened Common
  import opened Snapshots
  import opened Overlays

  // How one changed file was read (commit.rs:37-46).
  datatype Outcome = Indexed(content: Content) | Excluded | Vanished

  // ---------------------------------------------------------------- the simple map update

  // What a commit does to the path map: every changed path takes its outcome,
  // every deleted path goes, every other path stays.
  function Committed(lx: Lexer, view: map<Path, Entry>, changed: set<Path>, gone: set<Path>,
                     classify: Path -> Outcome): map<Path, Entry>
  {
    (map p | p in view && p !in changed && p !in gone :: view[p])
    + (map p | p in changed && classify(p).Indexed? :: EntryOf(lx, classify(p).content))
  }

  // ---------------------------------------------------------------- helpers of the commit

  // helpers.rs:166-182
  method BaseDocIdLimit(segs: seq<Segment>) returns (r: Result<nat>)
    ensures r.Err? <==> exists k :: 0 <= k < |segs| && segs[k].End() > U32_MAX
    ensures r.Ok? ==> forall k :: 0 <= k < |segs| ==> segs[k].End() <= r.value
    ensures r.Ok? ==> r.value == 0 || exists k :: 0 <= k < |segs| && segs[k].End() == r.value
  {
    var maxLimit := 0;
    for k := 0 to |segs|
      invariant forall i :: 0 <= i < k ==> segs[i].End() <= maxLimit && segs[i].End() <= U32_MAX
      invariant maxLimit == 0 || exists i :: 0 <= i < k && segs[i].End() == maxLimit
    {
      var limit := segs[k].End();
      if limit > U32_MAX {
        return Err(DocIdOverflow);
      }
      if limit > maxLimit {
        maxLimit := limit;
      }
    }
    r := Ok(maxLimit);
  }

  // helpers.rs:149-163
  function ProjectedOverlayDocCount(prev: Overlay, visible: set<Path>, removed: set<Path>): nat {
    |Kept(prev.docs, visible + removed)| + |visible - removed|
  }

  ghost function IdsWithPaths(segs: seq<Segment>, paths: set<Path>): set<nat> {
    set r | r in AllRows(segs) && r.path in paths :: r.id
  }

  // `BaseSegments::path_doc_ids`: the base ids of one path, hidden or not.
  function PathDocIds(segs: seq<Segment>, path: Path): (ids: set<nat>)
    ensures ids == IdsWithPaths(segs, {path})
  {
    set r | r in AllRows(segs) && r.path == path :: r.id
  }

  // pending.rs:204-221
  method ComputeDeleteSet(segs: seq<Segment>, paths: set<Path>, prev: set<nat>) returns (r: set<nat>)
    ensures r == prev + IdsWithPaths(segs, paths)
  {
    r := prev;
    var todo := paths;
    while todo != {}
      invariant todo <= paths
      invariant r == prev + IdsWithPaths(segs, paths - todo)
      decreases todo
    {
      var p :| p in todo;
      r := r + PathDocIds(segs, p);
      assert paths - (todo - {p}) == (paths - todo) + {p};
      todo := todo - {p};
    }
    assert paths - todo == paths;
  }

  // ---------------------------------------------------------------- the new snapshot

  // Read every changed file once and sort the outcomes (commit.rs:129-152).
  method ReadChanged(changed: set<Path>, classify: Path -> Outcome)
    returns (files: seq<NewFile>, excluded: set<Path>, vanished: set<Path>)
    ensures excluded == WithOutcome(changed, classify, Excluded)
    ensures vanished == WithOutcome(changed, classify, Vanished)
    ensures Reads(files, changed, classify)
  {
    files, excluded, vanished := [], {}, {};
    var todo := changed;
    ghost var done: set<Path> := {};
    while todo != {}
      invariant done + todo == changed && done !! todo
      invariant excluded == WithOutcome(done, classify, Excluded)
      invariant vanished == WithOutcome(done, classify, Vanished)
      invariant Reads(files, done, classify)
      decreases todo
    {
      var p :| p in todo;
      if classify(p).Indexed? {
        ReadsExtend(files, done, p, classify);
        files := files + [NewFile(p, classify(p).content)];
      } else {
        ReadsSkip(files, done, p, classify);
        if classify(p).Excluded? {
          excluded := excluded + {p};
        } else {
          vanished := vanished + {p};
        }
      }
      todo, done := todo - {p}, done + {p};
    }
    assert done == changed;
  }

  function WithOutcome(paths: set<Path>, classify: Path -> Outcome, o: Outcome): set<Path> {
    set p | p in paths && classify(p) == o
  }

  // Each file read is one visible path.
  lemma {:induction false} ReadsCount(files: seq<NewFile>, paths: set<Path>)
    requires forall i, j :: 0 <= i < j < |files| ==> files[i].path != files[j].path
    requires forall p :: p in paths <==> exists i :: 0 <= i < |files| && files[i].path == p
    ensures |files| == |paths|
  {
    if |files| == 0 {
      assert forall p :: p !in paths;
      assert paths == {};
    } else {
      var n := |files| - 1;
      var last := files[n].path;
      forall p ensures p in paths - {last} <==> exists i :: 0 <= i < n && files[..n][i].path == p {
        if p in paths - {last} {
          var i :| 0 <= i < |files| && files[i].path == p;
          assert files[..n][i].path == p;
        }
      }
      ReadsCount(files[..n], paths - {last});
      assert paths == (paths - {last}) + {last};
    }
  }

  lemma ReadsSkip(files: seq<NewFile>, done: set<Path>, p: Path, classify: Path -> Outcome)
    requires Reads(files, done, classify) && !classify(p).Indexed?
    ensures Reads(files, done + {p}, classify)
  {
  }

  // `files` lists, once each, the changed paths that were read, with contents.
  ghost predicate Reads(files: seq<NewFile>, changed: set<Path>, classify: Path -> Outcome) {
    && (forall i :: 0 <= i < |files| ==>
          files[i].path in changed && classify(files[i].path) == Indexed(files[i].content))
    && (forall i, j :: 0 <= i < j < |files| ==> files[i].path != files[j].path)
    && (forall p :: p in changed && classify(p).Indexed? ==> exists i :: 0 <= i < |files| && files[i].path == p)
  }

  lemma ReadsExtend(files: seq<NewFile>, done: set<Path>, p: Path, classify: Path -> Outcome)
    requires Reads(files, done, classify) && p !in done && classify(p).Indexed?
    ensures Reads(files + [NewFile(p, classify(p).content)], done + {p}, classify)
  {
    var more := files + [NewFile(p, classify(p).content)];
    forall q | q in done + {p} && classify(q).Indexed? ensures exists i :: 0 <= i < |more| && more[i].path == q {
      if q == p {
        assert more[|files|].path == q;
      } else {
        var i :| 0 <= i < |files| && files[i].path == q;
        assert more[i].path == q;
      }
    }
  }

  // The snapshot a commit stores, given the files it read and the overlay it built.
  ghost function NextSnapshot(s: Snapshot, touched: set<Path>, ov: Overlay): Snapshot {
    Snapshot(s.segs, s.deleted + IdsWithPaths(s.segs, touched), ov)
  }

  ghost predicate IsNextOverlay(lx: Lexer, s: Snapshot, files: seq<NewFile>, touched: set<Path>, ov: Overlay) {
    && OverlayWF(lx, ov, Limit(s.segs))
    && ov.docs == NextDocs(lx, Limit(s.segs), s.overlay, files, touched)
  }

  // The rows of the files just read.
  function AddedRows(lx: Lexer, s: Snapshot, files: seq<NewFile>): seq<Row> {
    var start := if Limit(s.segs) == s.overlay.baseCount then s.overlay.nextId else Limit(s.segs);
    OverlayRows(lx, Numbered(lx, files, start))
  }

  lemma NextOverlayRows(lx: Lexer, s: Snapshot, files: seq<NewFile>, touched: set<Path>, ov: Overlay)
    requires OverlayWF(lx, s.overlay, Limit(s.segs)) && IsNextOverlay(lx, s, files, touched, ov)
    ensures OverlayRows(lx, ov.docs) == OverlayRows(lx, Kept(s.overlay.docs, touched)) + AddedRows(lx, s, files)
  {
  }

  lemma KeptRows(lx: Lexer, docs: seq<OverlayDoc>, touched: set<Path>, r: Row)
    ensures r in OverlayRows(lx, Kept(docs, touched)) <==> r in OverlayRows(lx, docs) && r.path !in touched
  {
    var kept := Kept(docs, touched);
    KeptMember(docs, touched);
    if r in OverlayRows(lx, kept) {
      var i :| 0 <= i < |kept| && OverlayRows(lx, kept)[i] == r;
      assert kept[i] in kept;
      var k :| 0 <= k < |docs| && docs[k] == kept[i];
      assert OverlayRows(lx, docs)[k] == r;
    }
    if r in OverlayRows(lx, docs) && r.path !in touched {
      var k :| 0 <= k < |docs| && OverlayRows(lx, docs)[k] == r;
      assert docs[k] in kept;
      var i :| 0 <= i < |kept| && kept[i] == docs[k];
      assert OverlayRows(lx, kept)[i] == r;
    }
  }

  // No id names two base documents, so hiding the ids of some paths hides
  // those paths only.
  lemma HiddenRow(segs: seq<Segment>, touched: set<Path>, r: Row)
    requires SegsWF(segs) && r in AllRows(segs)
    ensures r.id in IdsWithPaths(segs, touched) <==> r.path in touched
  {
    AllRowsAscend(segs);
    var rows := AllRows(segs);
    if r.id in IdsWithPaths(segs, touched) {
      var q :| q in rows && q.path in touched && q.id == r.id;
      var i :| 0 <= i < |rows| && rows[i] == q;
      var j :| 0 <= j < |rows| && rows[j] == r;
      assert i == j;
    }
  }

  // The live rows after a commit: untouched rows stay, read files are added.
  lemma NextRows(lx: Lexer, s: Snapshot, files: seq<NewFile>, touched: set<Path>, ov: Overlay, r: Row)
    requires SegsWF(s.segs) && OverlayWF(lx, s.overlay, Limit(s.segs)) && IsNextOverlay(lx, s, files, touched, ov)
    ensures r in Rows(lx, NextSnapshot(s, touched, ov)) <==>
              (r in Rows(lx, s) && r.path !in touched) || r in AddedRows(lx, s, files)
  {
    var hidden := s.deleted + IdsWithPaths(s.segs, touched);
    KeepMember(AllRows(s.segs), s.deleted);
    KeepMember(AllRows(s.segs), hidden);
    if r in AllRows(s.segs) {
      HiddenRow(s.segs, touched, r);
    }
    NextOverlayRows(lx, s, files, touched, ov);
    KeptRows(lx, s.overlay.docs, touched, r);
  }

  ghost predicate AddedFor(lx: Lexer, added: seq<Row>, changed: set<Path>, classify: Path -> Outcome) {
    && (forall r :: r in added ==>
          r.path in changed && classify(r.path).Indexed? && r.entry == EntryOf(lx, classify(r.path).content))
    && (forall p :: p in changed && classify(p).Indexed? ==> exists r :: r in added && r.path == p)
    && (forall r, q :: r in added && q in added && r.path == q.path ==> r == q)
  }

  lemma AddedRowsFit(lx: Lexer, s: Snapshot, files: seq<NewFile>, changed: set<Path>, classify: Path -> Outcome)
    requires Reads(files, changed, classify)
    ensures AddedFor(lx, AddedRows(lx, s, files), changed, classify)
  {
    var added := AddedRows(lx, s, files);
    assert forall j :: 0 <= j < |files| ==>
             added[j].path == files[j].path && added[j].entry == EntryOf(lx, files[j].content);
    forall p | p in changed && classify(p).Indexed? ensures exists r :: r in added && r.path == p {
      var j :| 0 <= j < |files| && files[j].path == p;
      assert added[j] in added;
    }
  }

  // What the update of rows means for the path map.
  lemma ViewUpdated(lx: Lexer, rows: seq<Row>, rows': seq<Row>, added: seq<Row>, changed: set<Path>, gone: set<Path>,
                    classify: Path -> Outcome)
    requires DistinctPaths(rows) && DistinctPaths(rows') && changed !! gone
    requires forall r :: r in rows' <==> (r in rows && r.path !in changed + gone) || r in added
    requires AddedFor(lx, added, changed, classify)
    ensures ViewOf(rows') == Committed(lx, ViewOf(rows), changed, gone, classify)
  {
    forall p ensures p in ViewOf(rows') <==> p in Committed(lx, ViewOf(rows), changed, gone, classify) {
      NothingElse(lx, rows, rows', added, changed, gone, classify, p);
      if p in Committed(lx, ViewOf(rows), changed, gone, classify) {
        EntryArrives(lx, rows, rows', added, changed, gone, classify, p);
      }
    }
    forall p | p in Committed(lx, ViewOf(rows), changed, gone, classify)
      ensures ViewOf(rows')[p] == Committed(lx, ViewOf(rows), changed, gone, classify)[p]
    {
      EntryArrives(lx, rows, rows', added, changed, gone, classify, p);
    }
  }

  lemma NothingElse(lx: Lexer, rows: seq<Row>, rows': seq<Row>, added: seq<Row>, changed: set<Path>, gone: set<Path>,
                    classify: Path -> Outcome, p: Path)
    requires DistinctPaths(rows) && DistinctPaths(rows')
    requires forall r :: r in rows' <==> (r in rows && r.path !in changed + gone) || r in added
    requires AddedFor(lx, added, changed, classify)
    ensures p in ViewOf(rows') ==> p in Committed(lx, ViewOf(rows), changed, gone, classify)
  {
    ViewOfMember(rows);
    ViewOfMember(rows');
    if p in ViewOf(rows') {
      var r :| r in rows' && r.path == p;
      assert r in added || (r in rows && p !in changed + gone);
    }
  }

  lemma EntryArrives(lx: Lexer, rows: seq<Row>, rows': seq<Row>, added: seq<Row>, changed: set<Path>, gone: set<Path>,
                     classify: Path -> Outcome, p: Path)
    requires DistinctPaths(rows) && DistinctPaths(rows')
    requires forall r :: r in rows' <==> (r in rows && r.path !in changed + gone) || r in added
    requires AddedFor(lx, added, changed, classify)
    requires p in Committed(lx, ViewOf(rows), changed, gone, classify)
    ensures p in ViewOf(rows') && ViewOf(rows')[p] == Committed(lx, ViewOf(rows), changed, gone, classify)[p]
  {
    var r := CommittedRow(lx, rows, added, changed, gone, classify, p);
    ViewOfMember(rows');
    assert r in rows';
  }

  lemma CommittedRow(lx: Lexer, rows: seq<Row>, added: seq<Row>, changed: set<Path>, gone: set<Path>,
                     classify: Path -> Outcome, p: Path) returns (r: Row)
    requires DistinctPaths(rows) && AddedFor(lx, added, changed, classify)
    requires p in Committed(lx, ViewOf(rows), changed, gone, classify)
    ensures (r in rows && r.path !in changed + gone) || r in added
    ensures r.path == p && r.entry == Committed(lx, ViewOf(rows), changed, gone, classify)[p]
  {
    ViewOfMember(rows);
    if p in changed && classify(p).Indexed? {
      r :| r in added && r.path == p;
    } else {
      r :| r in rows && r.path == p;
    }
  }

  // Main commit theorem: the stored snapshot is well formed and means the
  // committed map.
  lemma CommitMeaning(lx: Lexer, s: Snapshot, files: seq<NewFile>, changed: set<Path>, gone: set<Path>,
                      classify: Path -> Outcome, ov: Overlay)
    requires SnapshotWF(lx, s) && changed !! gone
    requires Reads(files, changed, classify)
    requires IsNextOverlay(lx, s, files, changed + gone, ov)
    ensures SnapshotWF(lx, NextSnapshot(s, changed + gone, ov))
    ensures View(lx, NextSnapshot(s, changed + gone, ov)) == Committed(lx, View(lx, s), changed, gone, classify)
  {
    var s' := NextSnapshot(s, changed + gone, ov);
    var added := AddedRows(lx, s, files);
    forall r ensures r in Rows(lx, s') <==> (r in Rows(lx, s) && r.path !in changed + gone) || r in added {
      NextRows(lx, s, files, changed + gone, ov, r);
    }
    AddedRowsFit(lx, s, files, changed, classify);
    IdsAscend(lx, s);
    IdsAscend(lx, s');
    DistinctByMember(Rows(lx, s));
    DistinctByMember(Rows(lx, s'));
    AllRowsAscend(s.segs);
    ViewUpdated(lx, Rows(lx, s), Rows(lx, s'), added, changed, gone, classify);
  }
}
