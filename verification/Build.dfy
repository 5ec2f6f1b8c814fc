// The first index: every readable file, in walk order, under ids from 0
// (build.rs:59-352, walk.rs:328-348).
module Build {
  import opened Common
  import opened Snapshots
  import opened Disk
  import opened Writers
  import opened Compact
  import opened CompactApply
  import opened CompactPublish
  import opened Runs

  // Where a file is, the path it is indexed under, and its size. A caller's own
  // list is taken as it comes, repeats included (mod.rs:172-177,
  // build_external.rs:46-64).
  datatype FileRecord = FileRecord(location: Path, path: Path, size: nat)

  // How a record reads: its normalized content, or nothing when it is binary,
  // unreadable or has an over-long path.
  type Reader = FileRecord -> Option<Content>

  // ---------------------------------------------------------------- batches

  function Flatten(batches: seq<seq<FileRecord>>): seq<FileRecord> {
    if |batches| == 0 then [] else Flatten(batches[..|batches| - 1]) + batches[|batches| - 1]
  }

  function CappedSize(files: seq<FileRecord>, limit: nat): nat {
    if |files| == 0 then 0 else CappedSize(files[..|files| - 1], limit) + Min(files[|files| - 1].size, limit)
  }

  // Batches keep every file in order, none is empty, and none counts for more
  // than the limit. A file over the limit counts as exactly the limit. And no
  // batch ends before it must: the first file of the next would exceed it.
  method SplitBatches(files: seq<FileRecord>, limit: nat) returns (batches: seq<seq<FileRecord>>)
    ensures Flatten(batches) == files
    ensures GoodBatches(batches, limit)
    ensures forall k :: 0 < k < |batches| ==> Overflows(batches[k - 1], batches[k], limit)
  {
    batches := [];
    var current: seq<FileRecord>, currentSize := [], 0;
    for i := 0 to |files|
      invariant Flatten(batches) + current == files[..i]
      invariant currentSize == CappedSize(current, limit) <= limit
      invariant GoodBatches(batches, limit) && EndLate(batches, current, limit)
    {
      batches, current, currentSize := PlaceFile(batches, current, currentSize, files[i], limit);
      assert files[..i + 1] == files[..i] + [files[i]];
    }
    if current != [] {
      FlattenSnoc(batches, current);
      batches := batches + [current];
    }
    assert files[..|files|] == files;
  }

  // One file goes into the current batch or starts the next (walk.rs:333-342).
  method PlaceFile(batches0: seq<seq<FileRecord>>, current0: seq<FileRecord>, size0: nat, f: FileRecord, limit: nat)
    returns (batches: seq<seq<FileRecord>>, current: seq<FileRecord>, currentSize: nat)
    requires size0 == CappedSize(current0, limit) <= limit && GoodBatches(batches0, limit)
    ensures Flatten(batches) + current == Flatten(batches0) + current0 + [f]
    requires EndLate(batches0, current0, limit)
    ensures currentSize == CappedSize(current, limit) <= limit && GoodBatches(batches, limit)
    ensures EndLate(batches, current, limit)
  {
    batches, current, currentSize := batches0, current0, size0;
    if current != [] && currentSize + f.size > limit {
      ClosesBatch(batches, current, f, limit);
      batches := batches + [current];
      current, currentSize := [], 0;
    } else {
      GrowLate(batches, current, f, limit);
    }
    AddsToCurrent(Flatten(batches), current, f, limit);
    currentSize := currentSize + Min(f.size, limit);
    current := current + [f];
  }

  ghost predicate GoodBatches(batches: seq<seq<FileRecord>>, limit: nat) {
    forall b :: b in batches ==> b != [] && CappedSize(b, limit) <= limit
  }

  // The first file of `next` did not fit behind `batch`.
  ghost predicate Overflows(batch: seq<FileRecord>, next: seq<FileRecord>, limit: nat) {
    next != [] && CappedSize(batch, limit) + next[0].size > limit
  }

  ghost predicate EndLate(batches: seq<seq<FileRecord>>, current: seq<FileRecord>, limit: nat) {
    && (forall k :: 0 < k < |batches| ==> Overflows(batches[k - 1], batches[k], limit))
    && (|batches| > 0 ==> Overflows(batches[|batches| - 1], current, limit))
  }

  lemma AddsToCurrent(done: seq<FileRecord>, current: seq<FileRecord>, f: FileRecord, limit: nat)
    ensures done + (current + [f]) == done + current + [f]
    ensures CappedSize(current + [f], limit) == CappedSize(current, limit) + Min(f.size, limit)
  {
    assert (current + [f])[..|current|] == current;
  }

  lemma ClosesBatch(batches: seq<seq<FileRecord>>, current: seq<FileRecord>, f: FileRecord, limit: nat)
    requires GoodBatches(batches, limit) && EndLate(batches, current, limit)
    requires current != [] && CappedSize(current, limit) <= limit < CappedSize(current, limit) + f.size
    ensures GoodBatches(batches + [current], limit) && EndLate(batches + [current], [] + [f], limit)
    ensures Flatten(batches + [current]) + [] == Flatten(batches) + current
  {
    FlattenSnoc(batches, current);
  }

  lemma GrowLate(batches: seq<seq<FileRecord>>, current: seq<FileRecord>, f: FileRecord, limit: nat)
    requires EndLate(batches, current, limit)
    ensures EndLate(batches, current + [f], limit)
  {
  }

  lemma FlattenSnoc(batches: seq<seq<FileRecord>>, b: seq<FileRecord>)
    ensures Flatten(batches + [b]) == Flatten(batches) + b
  {
    assert (batches + [b])[..|batches|] == batches;
  }

  // ---------------------------------------------------------------- rows

  function BuiltEntry(lx: Lexer, f: FileRecord, c: Content): Entry { Entry(lx.hash(c), f.size, lx.grams(c)) }

  // Readable files, numbered consecutively from `start`.
  function BuiltRows(lx: Lexer, files: seq<FileRecord>, read: Reader, start: nat): seq<Row> {
    if |files| == 0 then []
    else
      var before, f := BuiltRows(lx, files[..|files| - 1], read, start), files[|files| - 1];
      if read(f).None? then before
      else before + [Row(start + |before|, f.path, BuiltEntry(lx, f, read(f).value))]
  }

  lemma {:induction false} BuiltRowsAppend(lx: Lexer, a: seq<FileRecord>, b: seq<FileRecord>, read: Reader, start: nat)
    ensures BuiltRows(lx, a + b, read, start)
              == BuiltRows(lx, a, read, start) + BuiltRows(lx, b, read, start + |BuiltRows(lx, a, read, start)|)
    decreases |b|
  {
    if |b| == 0 {
      assert a + b == a;
    } else {
      var n := |b| - 1;
      BuiltRowsAppend(lx, a, b[..n], read, start);
      assert (a + b)[..|a + b| - 1] == a + b[..n];
    }
  }

  lemma {:induction false} BuiltIds(lx: Lexer, files: seq<FileRecord>, read: Reader, start: nat)
    ensures forall i :: 0 <= i < |BuiltRows(lx, files, read, start)| ==>
              BuiltRows(lx, files, read, start)[i].id == start + i
  {
    if |files| != 0 {
      BuiltIds(lx, files[..|files| - 1], read, start);
    }
  }

  // The map a fresh index stands for.
  ghost predicate IsBuiltView(lx: Lexer, files: seq<FileRecord>, read: Reader, view: map<Path, Entry>) {
    && (forall f :: f in files && read(f).Some? ==>
          f.path in view && view[f.path] == BuiltEntry(lx, f, read(f).value))
    && (forall p :: p in view ==> exists f :: f in files && read(f).Some? && f.path == p)
  }

  // No two readable records have one path.
  ghost predicate NoRepeat(files: seq<FileRecord>, read: Reader) {
    forall i, j ::
      0 <= i < j < |files| && read(files[i]).Some? && read(files[j]).Some? ==> files[i].path != files[j].path
  }

  ghost predicate RowFor(lx: Lexer, f: FileRecord, read: Reader, r: Row) {
    read(f).Some? && r.path == f.path && r.entry == BuiltEntry(lx, f, read(f).value)
  }

  // Every readable record has a row, and every row comes from one.
  lemma {:induction false} RowOfRecord(lx: Lexer, files: seq<FileRecord>, read: Reader, start: nat, f: FileRecord)
    returns (r: Row)
    requires f in files && read(f).Some?
    ensures r in BuiltRows(lx, files, read, start) && RowFor(lx, f, read, r)
  {
    var init, last := files[..|files| - 1], files[|files| - 1];
    if f == last {
      r := Row(start + |BuiltRows(lx, init, read, start)|, f.path, BuiltEntry(lx, f, read(f).value));
    } else {
      assert files == init + [last];
      r := RowOfRecord(lx, init, read, start, f);
    }
  }

  lemma {:induction false} RecordOfRow(lx: Lexer, files: seq<FileRecord>, read: Reader, start: nat, r: Row)
    returns (f: FileRecord)
    requires r in BuiltRows(lx, files, read, start)
    ensures f in files && RowFor(lx, f, read, r)
  {
    var init, last := files[..|files| - 1], files[|files| - 1];
    if r in BuiltRows(lx, init, read, start) {
      f := RecordOfRow(lx, init, read, start, r);
    } else {
      f := last;
    }
  }

  // The rows have distinct paths exactly when no readable path is repeated.
  lemma {:induction false} DistinctExactly(lx: Lexer, files: seq<FileRecord>, read: Reader, start: nat)
    ensures DistinctPaths(BuiltRows(lx, files, read, start)) <==> NoRepeat(files, read)
  {
    if |files| != 0 {
      var init, last := files[..|files| - 1], files[|files| - 1];
      var before, rows := BuiltRows(lx, init, read, start), BuiltRows(lx, files, read, start);
      DistinctExactly(lx, init, read, start);
      NoRepeatSnoc(init, last, read);
      assert files == init + [last];
      if read(last).Some? {
        DistinctSnoc(before, rows[|before|]);
        assert rows == before + [rows[|before|]];
        SamePaths(lx, init, read, start, last.path);
      }
    }
  }

  lemma SamePaths(lx: Lexer, files: seq<FileRecord>, read: Reader, start: nat, p: Path)
    ensures (forall r :: r in BuiltRows(lx, files, read, start) ==> r.path != p)
            <==> forall f :: f in files && read(f).Some? ==> f.path != p
  {
    if f :| f in files && read(f).Some? && f.path == p {
      var r := RowOfRecord(lx, files, read, start, f);
    }
    if r :| r in BuiltRows(lx, files, read, start) && r.path == p {
      var f := RecordOfRow(lx, files, read, start, r);
    }
  }

  lemma DistinctSnoc(rows: seq<Row>, row: Row)
    ensures DistinctPaths(rows + [row]) <==> DistinctPaths(rows) && forall r :: r in rows ==> r.path != row.path
  {
    var more := rows + [row];
    if DistinctPaths(more) {
      forall i, j | 0 <= i < j < |rows| ensures rows[i].path != rows[j].path {
        assert more[i].path != more[j].path;
      }
      forall r | r in rows ensures r.path != row.path {
        var i :| 0 <= i < |rows| && rows[i] == r;
        assert more[i].path != more[|rows|].path;
      }
    }
  }

  lemma NoRepeatSnoc(files: seq<FileRecord>, f: FileRecord, read: Reader)
    ensures NoRepeat(files + [f], read) <==>
              NoRepeat(files, read)
              && (read(f).Some? ==> forall g :: g in files && read(g).Some? ==> g.path != f.path)
  {
    var more := files + [f];
    if NoRepeat(more, read) {
      forall i, j | 0 <= i < j < |files| && read(files[i]).Some? && read(files[j]).Some?
        ensures files[i].path != files[j].path
      {
        assert more[i] == files[i] && more[j] == files[j];
      }
      if read(f).Some? {
        forall g | g in files && read(g).Some? ensures g.path != f.path {
          var i :| 0 <= i < |files| && files[i] == g;
          assert more[i] == g && more[|files|] == f;
        }
      }
    }
  }

  // What is built means the map of the readable files, with one live document
  // a path, exactly when no readable path is repeated.
  lemma BuiltMeaning(lx: Lexer, files: seq<FileRecord>, read: Reader, start: nat)
    ensures DistinctPaths(BuiltRows(lx, files, read, start)) <==> NoRepeat(files, read)
    ensures NoRepeat(files, read) ==> IsBuiltView(lx, files, read, ViewOf(BuiltRows(lx, files, read, start)))
  {
    var rows := BuiltRows(lx, files, read, start);
    DistinctExactly(lx, files, read, start);
    if NoRepeat(files, read) {
      ViewOfMember(rows);
      forall f | f in files && read(f).Some?
        ensures f.path in ViewOf(rows) && ViewOf(rows)[f.path] == BuiltEntry(lx, f, read(f).value)
      {
        var r := RowOfRecord(lx, files, read, start, f);
      }
      forall p | p in ViewOf(rows) ensures exists f :: f in files && read(f).Some? && f.path == p {
        var r :| r in rows && r.path == p;
        var f := RecordOfRow(lx, files, read, start, r);
      }
    }
  }

  // ---------------------------------------------------------------- one batch

  ghost predicate PairsOfRows(pairs: seq<(Gram, nat)>, rows: seq<Row>, start: nat) {
    forall g: Gram, x: nat :: (g, x) in pairs <==> HasGram(rows, start, 0, |rows|, g, x)
  }

  method AddGrams(w: Writer, grams: set<Gram>, id: nat) returns (w2: Writer)
    ensures w2.docs == w.docs
    ensures forall g: Gram, x: nat :: (g, x) in w2.pairs <==> (g, x) in w.pairs || (x == id && g in grams)
  {
    w2 := w;
    var todo := grams;
    while todo != {}
      invariant todo <= grams && w2.docs == w.docs
      invariant forall g: Gram, x: nat :: (g, x) in w2.pairs <==> (g, x) in w.pairs || (x == id && g in grams - todo)
      decreases todo
    {
      var g :| g in todo;
      w2 := w2.AddGramPosting(g, id);
      todo := todo - {g};
    }
  }

  // build.rs:171-192
  method FillBatch(lx: Lexer, batch: seq<FileRecord>, read: Reader, start: nat) returns (r: Result<Writer>)
    requires start <= U32_MAX
    ensures r.Ok? <==> start + |BuiltRows(lx, batch, read, start)| <= U32_MAX
    ensures r.Err? ==> r.error == DocIdOverflow
    ensures r.Ok? ==> r.value.docs == DocsOf(BuiltRows(lx, batch, read, start))
    ensures r.Ok? ==> PairsOfRows(r.value.pairs, BuiltRows(lx, batch, read, start), start)
  {
    var w := EmptyWriter;
    var nextDocId := start;
    for i := 0 to |batch|
      invariant nextDocId == start + |BuiltRows(lx, batch[..i], read, start)| <= U32_MAX
      invariant w.docs == DocsOf(BuiltRows(lx, batch[..i], read, start))
      invariant PairsOfRows(w.pairs, BuiltRows(lx, batch[..i], read, start), start)
    {
      ghost var rows := BuiltRows(lx, batch[..i], read, start);
      BatchOneMore(lx, batch, read, start, i);
      var f := batch[i];
      if read(f).Some? {
        var content := read(f).value;
        if nextDocId == U32_MAX {
          return Err(DocIdOverflow);
        }
        w := w.AddDocument(nextDocId, f.path, lx.hash(content), f.size);
        ghost var before := w.pairs;
        w := AddGrams(w, lx.grams(content), nextDocId);
        PairsOneMore(before, w.pairs, rows, Row(nextDocId, f.path, BuiltEntry(lx, f, content)), start);
        nextDocId := nextDocId + 1;
      }
    }
    assert batch[..|batch|] == batch;
    r := Ok(w);
  }

  lemma BatchOneMore(lx: Lexer, batch: seq<FileRecord>, read: Reader, start: nat, i: nat)
    requires i < |batch|
    ensures var before, f := BuiltRows(lx, batch[..i], read, start), batch[i];
            BuiltRows(lx, batch[..i + 1], read, start) == before + if read(f).None? then []
              else [Row(start + |before|, f.path, BuiltEntry(lx, f, read(f).value))]
    ensures |BuiltRows(lx, batch[..i + 1], read, start)| <= |BuiltRows(lx, batch, read, start)|
  {
    assert batch[..i + 1][..i] == batch[..i];
    assert batch == batch[..i + 1] + batch[i + 1..];
    BuiltRowsAppend(lx, batch[..i + 1], batch[i + 1..], read, start);
  }

  lemma PairsOneMore(pairs: seq<(Gram, nat)>, more: seq<(Gram, nat)>, rows: seq<Row>, row: Row, start: nat)
    requires PairsOfRows(pairs, rows, start) && row.id == start + |rows|
    requires forall g: Gram, x: nat :: (g, x) in more <==> (g, x) in pairs || (x == row.id && g in row.entry.grams)
    ensures PairsOfRows(more, rows + [row], start)
  {
    forall g: Gram, x: nat ensures (g, x) in more <==> HasGram(rows + [row], start, 0, |rows| + 1, g, x) {
      assert (g, x) in pairs <==> HasGram(rows, start, 0, |rows|, g, x);
    }
  }

  lemma BatchSegment(lx: Lexer, batch: seq<FileRecord>, read: Reader, start: nat, w: Writer)
    requires w.docs == DocsOf(BuiltRows(lx, batch, read, start))
    requires PairsOfRows(w.pairs, BuiltRows(lx, batch, read, start), start)
    requires w.docs != []
    ensures SegWF(OutputOf(w, start)) && SegRows(OutputOf(w, start)) == BuiltRows(lx, batch, read, start)
    ensures DocsAscend(w.docs) && ProperIds(OutputOf(w, start))
  {
    var rows := BuiltRows(lx, batch, read, start);
    BuiltIds(lx, batch, read, start);
    PostingMapExact(w.pairs);
    assert IsOutput(OutputOf(w, start), rows, start, 0, |rows|);
    OutputRows(OutputOf(w, start), rows, start, 0, |rows|);
    assert RenumberRows(rows, start)[0..|rows|] == rows;
  }

  // ---------------------------------------------------------------- all batches

  // The segments written so far hold the files of the batches done so far.
  ghost predicate BuiltSoFar(lx: Lexer, outs: seq<Segment>, done: seq<FileRecord>, read: Reader) {
    && AllRows(outs) == BuiltRows(lx, done, read, 0)
    && Chained(0, outs) && EndBefore(0, outs, |outs|) == |BuiltRows(lx, done, read, 0)|
    && forall k :: 0 <= k < |outs| ==> SegWF(outs[k])
  }

  lemma BuiltMore(lx: Lexer, outs: seq<Segment>, done: seq<FileRecord>, read: Reader, batch: seq<FileRecord>,
                  seg: Segment)
    requires BuiltSoFar(lx, outs, done, read)
    requires seg.base == |BuiltRows(lx, done, read, 0)| && SegWF(seg) && ProperIds(seg)
    requires SegRows(seg) == BuiltRows(lx, batch, read, seg.base)
    ensures BuiltSoFar(lx, outs + [seg], done + batch, read)
  {
    BuiltRowsAppend(lx, done, batch, read, 0);
    assert (outs + [seg])[..|outs|] == outs;
    ChainMore(outs, seg);
  }

  lemma ChainMore(outs: seq<Segment>, seg: Segment)
    requires Chained(0, outs) && seg.base == EndBefore(0, outs, |outs|) && ProperIds(seg)
    ensures Chained(0, outs + [seg]) && EndBefore(0, outs + [seg], |outs| + 1) == seg.End()
  {
    var more := outs + [seg];
    forall t | 0 <= t < |more| ensures more[t].base == EndBefore(0, more, t) {
      if t < |outs| {
        assert outs[t].base == EndBefore(0, outs, t);
      }
    }
  }

  lemma BuiltNothing(lx: Lexer, outs: seq<Segment>, done: seq<FileRecord>, read: Reader, batch: seq<FileRecord>)
    requires BuiltSoFar(lx, outs, done, read) && BuiltRows(lx, batch, read, |BuiltRows(lx, done, read, 0)|) == []
    ensures BuiltSoFar(lx, outs, done + batch, read)
  {
    NoNewRows(lx, done, batch, read);
    SameRowsSoFar(lx, outs, done, done + batch, read);
  }

  lemma NoNewRows(lx: Lexer, done: seq<FileRecord>, batch: seq<FileRecord>, read: Reader)
    requires BuiltRows(lx, batch, read, |BuiltRows(lx, done, read, 0)|) == []
    ensures BuiltRows(lx, done + batch, read, 0) == BuiltRows(lx, done, read, 0)
  {
    BuiltRowsAppend(lx, done, batch, read, 0);
  }

  lemma SameRowsSoFar(lx: Lexer, outs: seq<Segment>, done: seq<FileRecord>, done': seq<FileRecord>, read: Reader)
    requires BuiltSoFar(lx, outs, done, read) && BuiltRows(lx, done', read, 0) == BuiltRows(lx, done, read, 0)
    ensures BuiltSoFar(lx, outs, done', read)
  {
  }

  lemma {:induction false} ChainOrder(limit: nat, outs: seq<Segment>, k: nat, l: nat)
    requires Linked(limit, outs) && k < l < |outs|
    ensures outs[k].End() <= outs[l].base
    decreases l
  {
    assert outs[l].base == EndBefore(limit, outs, l);
    if k < l - 1 {
      ChainOrder(limit, outs, k, l - 1);
    }
  }

  lemma ChainEnds(outs: seq<Segment>)
    requires Linked(0, outs) && EndBefore(0, outs, |outs|) <= MAX_TOTAL_DOCS
    ensures forall k, l :: 0 <= k < l < |outs| ==> outs[k].End() <= outs[l].base
    ensures forall k :: 0 <= k < |outs| ==> outs[k].End() <= MAX_TOTAL_DOCS
  {
    forall k, l | 0 <= k < l < |outs| ensures outs[k].End() <= outs[l].base {
      ChainOrder(0, outs, k, l);
    }
    if |outs| > 0 {
      assert outs[|outs| - 1].base <= outs[|outs| - 1].End() <= MAX_TOTAL_DOCS;
    }
  }

  lemma ChainWF(outs: seq<Segment>)
    requires Linked(0, outs) && EndBefore(0, outs, |outs|) <= MAX_TOTAL_DOCS
    requires forall k :: 0 <= k < |outs| ==> SegWF(outs[k])
    ensures SegsWF(outs)
  {
    ChainEnds(outs);
  }

  // A fresh index: one document for every readable record, nothing hidden.
  ghost predicate IsBuilt(lx: Lexer, files: seq<FileRecord>, read: Reader, s: Snapshot) {
    && SegsWF(s.segs) && s.deleted == {} && s.overlay == EmptyOverlay
    && Rows(lx, s) == BuiltRows(lx, files, read, 0)
  }

  ghost predicate OpensBuilt(lx: Lexer, files: seq<FileRecord>, read: Reader, st: State) {
    && (|BuiltRows(lx, files, read, 0)| <= MAX_TOTAL_DOCS ==>
          Load(st).Ok? && IsBuilt(lx, files, read, Load(st).value) && Synced(st, Load(st).value))
    && (|BuiltRows(lx, files, read, 0)| > MAX_TOTAL_DOCS ==> Load(st) == Err(CorruptIndex))
  }

  // It is well formed, and then means the map of the readable files, exactly
  // when no readable path is repeated.
  lemma BuiltIsWF(lx: Lexer, files: seq<FileRecord>, read: Reader, s: Snapshot)
    requires IsBuilt(lx, files, read, s)
    ensures SnapshotWF(lx, s) <==> NoRepeat(files, read)
    ensures NoRepeat(files, read) ==> IsBuiltView(lx, files, read, View(lx, s))
  {
    BuiltMeaning(lx, files, read, 0);
    EmptyOverlayWF(lx, Limit(s.segs));
  }

  // Searching a fresh index finds a file under exactly the grams of its own
  // content, and what is recorded of it is the hash of that content and the
  // size in the list.
  lemma BuiltIsSearchable(lx: Lexer, files: seq<FileRecord>, read: Reader, s: Snapshot, f: FileRecord, g: Gram)
    requires IsBuilt(lx, files, read, s) && NoRepeat(files, read) && f in files && read(f).Some?
    ensures f.path in QueryPaths(lx, s, g) <==> g in lx.grams(read(f).value)
    ensures f.path in View(lx, s) && View(lx, s)[f.path].hash == lx.hash(read(f).value)
    ensures View(lx, s)[f.path].size == f.size
  {
    BuiltIsWF(lx, files, read, s);
    QueryExact(lx, s, g);
  }

  // And nothing else is found.
  lemma BuiltFindsOnly(lx: Lexer, files: seq<FileRecord>, read: Reader, s: Snapshot, p: Path, g: Gram)
    returns (f: FileRecord)
    requires IsBuilt(lx, files, read, s) && NoRepeat(files, read) && p in QueryPaths(lx, s, g)
    ensures f in files && f.path == p && read(f).Some? && g in lx.grams(read(f).value)
  {
    BuiltIsWF(lx, files, read, s);
    QueryExact(lx, s, g);
    f :| f in files && read(f).Some? && f.path == p;
  }

  // A readable record listed twice is indexed twice.
  lemma RepeatedRecord(lx: Lexer, f: FileRecord, read: Reader)
    requires read(f).Some?
    ensures !NoRepeat([f, f], read)
    ensures var row := Row(0, f.path, BuiltEntry(lx, f, read(f).value));
            BuiltRows(lx, [f, f], read, 0) == [row, row.(id := 1)]
    ensures !DistinctPaths(BuiltRows(lx, [f, f], read, 0))
  {
    var row := Row(0, f.path, BuiltEntry(lx, f, read(f).value));
    assert [f, f][..1] == [f] && [f][..0] == [];
    assert BuiltRows(lx, [f], read, 0) == BuiltRows(lx, [], read, 0) + [row];
    assert [f, f][0] == [f, f][1];
    BuiltMeaning(lx, [f, f], read, 0);
  }

  lemma BuiltOpens(lx: Lexer, files: seq<FileRecord>, read: Reader, disk: map<Name, File>, refs: seq<SegmentRef>,
                   outs: seq<Segment>, m: Manifest, lo: nat, hi: nat)
    requires BuiltSoFar(lx, outs, files, read)
    requires OutputsWritten(disk, refs, outs, lo, hi) && m.segments == refs && m.deletesFile == None
    ensures OpensBuilt(lx, files, read, State(disk, Some(m)))
  {
    OutputsOpen(disk, [], [], 0, refs, outs, lo, hi);
    assert [] + refs == refs && [] + outs == outs;
    if EndBefore(0, outs, |outs|) <= MAX_TOTAL_DOCS {
      BuiltSnapshot(lx, files, read, Snapshot(outs, {}, EmptyOverlay));
      BuiltLoads(disk, refs, outs, m, lo, hi);
    }
  }

  lemma BuiltLoads(disk: map<Name, File>, refs: seq<SegmentRef>, outs: seq<Segment>, m: Manifest, lo: nat, hi: nat)
    requires OpenSegments(disk, refs) == Ok(outs) && m.segments == refs && m.deletesFile == None
    requires OutputsWritten(disk, refs, outs, lo, hi)
    ensures var s := Snapshot(outs, {}, EmptyOverlay);
            Load(State(disk, Some(m))) == Ok(s) && Synced(State(disk, Some(m)), s)
  {
    assert forall k :: 0 <= k < |outs| ==> OutputWritten(disk, refs[k], outs[k], lo, hi);
  }

  lemma BuiltSnapshot(lx: Lexer, files: seq<FileRecord>, read: Reader, s: Snapshot)
    requires BuiltSoFar(lx, s.segs, files, read)
    requires s.deleted == {} && s.overlay == EmptyOverlay && EndBefore(0, s.segs, |s.segs|) <= MAX_TOTAL_DOCS
    ensures IsBuilt(lx, files, read, s)
  {
    ChainWF(s.segs);
    KeepAll(AllRows(s.segs), {});
    assert OverlayRows(lx, EmptyOverlay.docs) == [];
  }

  // One batch: fill a writer and write it, unless no file in it was readable.
  method WriteBatch(lx: Lexer, dir: Directory, batch: seq<FileRecord>, read: Reader, start: nat)
    returns (r: Result<Option<SegmentRef>>, nextDocId: nat, ghost seg: Segment)
    requires dir.Valid() && start <= U32_MAX
    modifies dir
    ensures dir.Valid() && dir.manifest == old(dir.manifest) && dir.nextUid >= old(dir.nextUid)
    ensures Quiet(old(dir.past), dir.past, dir.manifest, old(dir.files), dir.files, old(dir.nextUid))
    ensures r.Ok? ==> nextDocId == start + |BuiltRows(lx, batch, read, start)| <= U32_MAX
    ensures r.Ok? && r.value.None? ==> BuiltRows(lx, batch, read, start) == []
    ensures r.Ok? && r.value.Some? ==>
              && OutputWritten(dir.files, r.value.value, seg, old(dir.nextUid), dir.nextUid)
              && seg.base == start && SegWF(seg) && ProperIds(seg) && SegRows(seg) == BuiltRows(lx, batch, read, start)
    ensures old(dir.Working()) && start + |BuiltRows(lx, batch, read, start)| <= U32_MAX ==> r.Ok? && dir.Working()
  {
    nextDocId := start;
    seg := Segment(0, [], map[], None);
    assert Quiet(old(dir.past), dir.past, dir.manifest, old(dir.files), dir.files, old(dir.nextUid));
    var filled := FillBatch(lx, batch, read, start);
    if filled.Err? {
      return Err(filled.error), nextDocId, seg;
    }
    var w := filled.value;
    nextDocId := start + |w.docs|;
    if w.docs == [] {
      return Ok(None), nextDocId, seg;
    }
    BatchSegment(lx, batch, read, start, w);
    seg := OutputOf(w, start);
    var written := WriteOutput(dir, w, start);
    r := if written.Err? then Err(written.error) else Ok(Some(written.value));
  }

  lemma {:induction false} RowsNoLess(lx: Lexer, batches: seq<seq<FileRecord>>, k: nat, read: Reader)
    requires k <= |batches|
    ensures |BuiltRows(lx, Flatten(batches[..k]), read, 0)| <= |BuiltRows(lx, Flatten(batches), read, 0)|
    decreases |batches|
  {
    if k == |batches| {
      assert batches[..k] == batches;
    } else {
      var n := |batches| - 1;
      assert batches[..n][..k] == batches[..k];
      RowsNoLess(lx, batches[..n], k, read);
      BuiltRowsAppend(lx, Flatten(batches[..n]), batches[n], read, 0);
    }
  }

  // What one batch more comes to.
  lemma OneBatchMore(lx: Lexer, batches: seq<seq<FileRecord>>, k: nat, read: Reader)
    requires k < |batches|
    ensures var done := Flatten(batches[..k]);
            && Flatten(batches[..k + 1]) == done + batches[k]
            && BuiltRows(lx, done + batches[k], read, 0)
               == BuiltRows(lx, done, read, 0) + BuiltRows(lx, batches[k], read, |BuiltRows(lx, done, read, 0)|)
            && |BuiltRows(lx, done + batches[k], read, 0)| <= |BuiltRows(lx, Flatten(batches), read, 0)|
  {
    assert batches[..k + 1][..k] == batches[..k];
    BuiltRowsAppend(lx, Flatten(batches[..k]), batches[k], read, 0);
    RowsNoLess(lx, batches, k + 1, read);
  }

  method WriteBatches(lx: Lexer, dir: Directory, batches: seq<seq<FileRecord>>, read: Reader)
    returns (r: Result<seq<SegmentRef>>, ghost outs: seq<Segment>)
    requires dir.Valid()
    modifies dir
    ensures dir.Valid() && dir.manifest == old(dir.manifest) && dir.nextUid >= old(dir.nextUid)
    ensures Quiet(old(dir.past), dir.past, dir.manifest, old(dir.files), dir.files, old(dir.nextUid))
    ensures r.Ok? ==> OutputsWritten(dir.files, r.value, outs, old(dir.nextUid), dir.nextUid)
    ensures r.Ok? ==> BuiltSoFar(lx, outs, Flatten(batches), read)
    ensures old(dir.Working()) && |BuiltRows(lx, Flatten(batches), read, 0)| <= U32_MAX ==> r.Ok? && dir.Working()
  {
    ghost var p0, f0, u0 := dir.past, dir.files, dir.nextUid;
    var refs, nextDocId := [], 0;
    outs := [];
    for k := 0 to |batches|
      invariant dir.Valid() && dir.manifest == old(dir.manifest) && dir.nextUid >= u0
      invariant Quiet(p0, dir.past, dir.manifest, f0, dir.files, u0)
      invariant OutputsWritten(dir.files, refs, outs, u0, dir.nextUid)
      invariant BuiltSoFar(lx, outs, Flatten(batches[..k]), read)
      invariant nextDocId == |BuiltRows(lx, Flatten(batches[..k]), read, 0)| <= U32_MAX
      invariant old(dir.Working()) ==> dir.Working()
    {
      ghost var p1, f1, u1 := dir.past, dir.files, dir.nextUid;
      ghost var seg;
      OneBatchMore(lx, batches, k, read);
      var one, start := Ok(None), nextDocId;
      one, nextDocId, seg := WriteBatch(lx, dir, batches[k], read, start);
      QuietTrans(p0, p1, dir.past, dir.manifest, f0, f1, dir.files, u0, u1);
      if one.Err? {
        return Err(one.error), outs;
      }
      OutputStaysWritten(f1, dir.files, refs, outs, u0, u1, dir.nextUid);
      if one.value.Some? {
        BuiltMore(lx, outs, Flatten(batches[..k]), read, batches[k], seg);
        refs, outs := refs + [one.value.value], outs + [seg];
      } else {
        BuiltNothing(lx, outs, Flatten(batches[..k]), read, batches[k]);
      }
    }
    assert batches[..|batches|] == batches;
    r := Ok(refs);
  }

  // build.rs:59-295. Leftovers of an earlier crash are collected first.
  method BuildIndexFromFileList(lx: Lexer, dir: Directory, files: seq<FileRecord>, read: Reader, batchLimit: nat,
                                head: Option<string>)
    returns (r: Result<Snapshot>, ghost cut: nat)
    requires dir.Valid()
    modifies dir
    ensures dir.Valid() && CrashSafe(old(dir.past), dir.past, cut, Load(old(dir.Now())), Load(dir.Now()))
    ensures cut == |dir.past| ==> r.Err? && SameIndex(old(dir.Now()), dir.Now())
    ensures cut < |dir.past| ==> r == Load(dir.Now()) || r == Err(IoFailed)
    ensures cut < |dir.past| ==> OpensBuilt(lx, files, read, dir.Now())
    ensures cut < |dir.past| ==> dir.manifest.Some? && dir.manifest.value.baseCommit == head
    // Only a failing system call or running out of 32-bit ids can keep it from
    // publishing.
    ensures old(dir.Working()) && |BuiltRows(lx, files, read, 0)| <= U32_MAX ==>
              cut < |dir.past| && r == Load(dir.Now()) && dir.Working()
  {
    ghost var p0, st0 := dir.past, dir.Now();
    if dir.manifest.Some? {
      dir.GcOrphans(dir.manifest.value);
      forall k | |p0| <= k < |dir.past| ensures Load(dir.past[k]) == Load(st0) {
        LoadFrame(dir.past[k], st0);
      }
      LoadFrame(dir.Now(), st0);
      BaseFrame(dir.Now(), st0);
    }
    ghost var p1 := dir.past;
    r, cut := BuildAndPublish(lx, dir, files, read, batchLimit, head);
    CrashSafeAfter(p0, p1, dir.past, cut, Load(st0), Load(dir.Now()));
  }

  method BuildAndPublish(lx: Lexer, dir: Directory, files: seq<FileRecord>, read: Reader, batchLimit: nat,
                         head: Option<string>)
    returns (r: Result<Snapshot>, ghost cut: nat)
    requires dir.Valid()
    modifies dir
    ensures dir.Valid() && CrashSafe(old(dir.past), dir.past, cut, Load(old(dir.Now())), Load(dir.Now()))
    ensures cut == |dir.past| ==> r.Err? && SameIndex(old(dir.Now()), dir.Now())
    ensures cut < |dir.past| ==> r == Load(dir.Now()) || r == Err(IoFailed)
    ensures cut < |dir.past| ==> OpensBuilt(lx, files, read, dir.Now())
    ensures cut < |dir.past| ==> dir.manifest.Some? && dir.manifest.value.baseCommit == head
    ensures old(dir.Working()) && |BuiltRows(lx, files, read, 0)| <= U32_MAX ==>
              cut < |dir.past| && r == Load(dir.Now()) && dir.Working()
  {
    ghost var p0, st0, u0 := dir.past, dir.Now(), dir.nextUid;
    var batches := SplitBatches(files, Max(batchLimit, 1));
    ghost var outs;
    var refs;
    refs, outs := WriteBatches(lx, dir, batches, read);
    ghost var p1, st1, u1 := dir.past, dir.Now(), dir.nextUid;
    QuietLoad(p0, p1, st0, dir.files, u0);
    cut := |p1|;
    if refs.Err? {
      return Err(refs.error), cut;
    }
    var m := Manifest(refs.value, None, head, 0);
    OutputNames(dir.files, refs.value, outs, m, u0, u1);
    BuiltOpens(lx, files, read, dir.files, refs.value, outs, m, u0, u1);
    r, cut := dir.Publish(m);
    CrashSafeAfterQuiet(p0, p1, dir.past, cut, st0, st1.files, u0, Load(dir.Now()));
    if cut < |dir.past| {
      OpensBuiltFrame(lx, files, read, State(st1.files, Some(m)), dir.Now());
    }
  }

  lemma OutputNames(files: map<Name, File>, refs: seq<SegmentRef>, outs: seq<Segment>, m: Manifest, lo: nat, hi: nat)
    requires OutputsWritten(files, refs, outs, lo, hi) && m.segments == refs && m.deletesFile == None
    ensures forall n: Name :: n in Named(m) ==> n.uid < hi && !n.TmpFile?
  {
    forall n: Name | n in Named(m) ensures n.uid < hi && !n.TmpFile? {
      var k :| 0 <= k < |refs| && (n == refs[k].dict || n == refs[k].post);
      assert OutputWritten(files, refs[k], outs[k], lo, hi);
    }
  }

  lemma OpensBuiltFrame(lx: Lexer, files: seq<FileRecord>, read: Reader, a: State, b: State)
    requires OpensBuilt(lx, files, read, a) && a.manifest.Some? && a.manifest == b.manifest
    requires AgreeOn(a.files, b.files, Named(a.manifest.value))
    ensures OpensBuilt(lx, files, read, b)
  {
    LoadFrame(a, b);
    BaseFrame(a, b);
  }

  // ---------------------------------------------------------------- runs from a fresh build

  lemma BuiltRefines(lx: Lexer, files: seq<FileRecord>, read: Reader, w: World)
    requires |BuiltRows(lx, files, read, 0)| <= MAX_TOTAL_DOCS && OpensBuilt(lx, files, read, w.st)
    requires w.mem == Load(w.st).value
    ensures Refines(lx, w, Spec(View(lx, w.mem), Some(View(lx, w.mem)), true)) <==> NoRepeat(files, read)
    ensures NoRepeat(files, read) ==> IsBuiltView(lx, files, read, View(lx, w.mem))
  {
    BuiltIsWF(lx, files, read, w.mem);
  }

  // After any run from a fresh build in which no readable path is repeated,
  // the index in memory means the map of the files first read, updated by
  // every commit since.
  lemma RunFromBuild(lx: Lexer, files: seq<FileRecord>, read: Reader, worlds: seq<World>, events: seq<Event>)
    requires IsRun(lx, worlds, events) && NoRepeat(files, read)
    requires |BuiltRows(lx, files, read, 0)| <= MAX_TOTAL_DOCS && OpensBuilt(lx, files, read, worlds[0].st)
    requires worlds[0].mem == Load(worlds[0].st).value
    ensures var view := View(lx, worlds[0].mem);
            && IsBuiltView(lx, files, read, view)
            && Refines(lx, worlds[|events|], SpecAfter(lx, Spec(view, Some(view), true), worlds, events))
  {
    BuiltRefines(lx, files, read, worlds[0]);
    RunRefines(lx, Spec(View(lx, worlds[0].mem), Some(View(lx, worlds[0].mem)), true), worlds, events);
  }

  // In particular, as long as the run is accounted for, a file that no commit
  // has touched is found under exactly the grams of the content first read.
  lemma UntouchedStaysSearchable(lx: Lexer, files: seq<FileRecord>, read: Reader, worlds: seq<World>,
                                 events: seq<Event>, f: FileRecord, g: Gram)
    requires IsRun(lx, worlds, events) && NoRepeat(files, read)
    requires |BuiltRows(lx, files, read, 0)| <= MAX_TOTAL_DOCS && OpensBuilt(lx, files, read, worlds[0].st)
    requires worlds[0].mem == Load(worlds[0].st).value
    requires f in files && read(f).Some? && Untouched(events, f.path)
    requires var view := View(lx, worlds[0].mem); SpecAfter(lx, Spec(view, Some(view), true), worlds, events).Spec?
    ensures var s := worlds[|events|].mem;
            && (f.path in QueryPaths(lx, s, g) <==> g in lx.grams(read(f).value))
            && f.path in View(lx, s) && View(lx, s)[f.path].hash == lx.hash(read(f).value)
            && View(lx, s)[f.path].size == f.size
  {
    var spec := Spec(View(lx, worlds[0].mem), Some(View(lx, worlds[0].mem)), true);
    BuiltIsSearchable(lx, files, read, worlds[0].mem, f, g);
    BuiltIsWF(lx, files, read, worlds[0].mem);
    RunFromBuild(lx, files, read, worlds, events);
    UntouchedStays(lx, spec, worlds, events, f.path);
    QueryExact(lx, worlds[|events|].mem, g);
  }
}
