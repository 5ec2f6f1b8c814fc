// The layered index: immutable base segments, a delete-set of hidden base ids
// and an in-memory overlay, together with the plain map it stands for.
module Snapshots {
  import opened Common

  datatype Path = Path(name: string)
  type Gram = nat
  type Byte = x: int | 0 <= x < 256
  type Content = seq<Byte>

  // The tokenizer (the grams of some content, repeats dropped) and the content
  // hash, both left uninterpreted.
  datatype Lexer = Lexer(grams: Content -> set<Gram>, hash: Content -> nat)

  // What the index knows about one indexed file.
  datatype Entry = Entry(hash: nat, size: nat, grams: set<Gram>)

  function EntryOf(lx: Lexer, content: Content): Entry {
    Entry(lx.hash(content), |content|, lx.grams(content))
  }

  datatype Doc = Doc(id: nat, path: Path, hash: nat, size: nat)

  datatype Segment = Segment(base: nat, docs: seq<Doc>, postings: map<Gram, seq<nat>>, docBytes: Option<nat>)
  {
    function End(): nat { base + |docs| }

    function Lookup(g: Gram): seq<nat> { if g in postings then postings[g] else [] }

    function GramsOf(id: nat): set<Gram> { set g | g in postings && id in postings[g] }
  }

  datatype OverlayDoc = OverlayDoc(id: nat, path: Path, content: Content, grams: set<Gram>)

  datatype Overlay = Overlay(docs: seq<OverlayDoc>, gramIndex: map<Gram, seq<nat>>, nextId: nat, baseCount: nat)
  {
    function Lookup(g: Gram): seq<nat> { if g in gramIndex then gramIndex[g] else [] }
  }

  const EmptyOverlay := Overlay([], map[], 0, 0)

  datatype Snapshot = Snapshot(segs: seq<Segment>, deleted: set<nat>, overlay: Overlay)

  // ---------------------------------------------------------------- rows

  // One document with its meaning.
  datatype Row = Row(id: nat, path: Path, entry: Entry)

  function SegRows(seg: Segment): (rows: seq<Row>)
    ensures |rows| == |seg.docs|
    ensures forall i :: 0 <= i < |rows| ==> rows[i] == DocRow(seg, seg.docs[i])
  {
    seq(|seg.docs|, i requires 0 <= i < |seg.docs| => DocRow(seg, seg.docs[i]))
  }

  function DocRow(seg: Segment, d: Doc): Row {
    Row(d.id, d.path, Entry(d.hash, d.size, seg.GramsOf(d.id)))
  }

  // Every base document, hidden or not, in id order.
  function AllRows(segs: seq<Segment>): seq<Row> {
    if |segs| == 0 then [] else AllRows(segs[..|segs| - 1]) + SegRows(segs[|segs| - 1])
  }

  // The rows that a delete-set does not hide.
  function Keep(rows: seq<Row>, hidden: set<nat>): seq<Row> {
    if |rows| == 0 then []
    else
      var last := rows[|rows| - 1];
      Keep(rows[..|rows| - 1], hidden) + if last.id in hidden then [] else [last]
  }

  lemma {:induction false} KeepMember(rows: seq<Row>, hidden: set<nat>)
    ensures forall x :: x in Keep(rows, hidden) <==> x in rows && x.id !in hidden
  {
    if |rows| != 0 {
      var init := rows[..|rows| - 1];
      assert rows == init + [rows[|rows| - 1]];
      KeepMember(init, hidden);
    }
  }

  function OverlayRow(lx: Lexer, d: OverlayDoc): Row { Row(d.id, d.path, EntryOf(lx, d.content)) }

  function OverlayRows(lx: Lexer, docs: seq<OverlayDoc>): (rows: seq<Row>)
    ensures |rows| == |docs|
    ensures forall i :: 0 <= i < |rows| ==> rows[i] == OverlayRow(lx, docs[i])
  {
    seq(|docs|, i requires 0 <= i < |docs| => OverlayRow(lx, docs[i]))
  }

  // The live documents of a snapshot, in id order.
  function Rows(lx: Lexer, s: Snapshot): seq<Row> {
    Keep(AllRows(s.segs), s.deleted) + OverlayRows(lx, s.overlay.docs)
  }

  ghost predicate DistinctPaths(rows: seq<Row>) {
    forall i, j :: 0 <= i < j < |rows| ==> rows[i].path != rows[j].path
  }

  // ---------------------------------------------------------------- the simple map

  // What a list of live documents means: which paths are indexed, and as what.
  function ViewOf(rows: seq<Row>): map<Path, Entry> {
    if |rows| == 0 then map[]
    else ViewOf(rows[..|rows| - 1])[rows[|rows| - 1].path := rows[|rows| - 1].entry]
  }

  function View(lx: Lexer, s: Snapshot): map<Path, Entry> { ViewOf(Rows(lx, s)) }

  lemma {:induction false} ViewOfExact(rows: seq<Row>)
    requires DistinctPaths(rows)
    ensures forall p :: p in ViewOf(rows) <==> exists i :: 0 <= i < |rows| && rows[i].path == p
    ensures forall i :: 0 <= i < |rows| ==> rows[i].path in ViewOf(rows) && ViewOf(rows)[rows[i].path] == rows[i].entry
  {
    if |rows| != 0 {
      var init := rows[..|rows| - 1];
      ViewOfExact(init);
      assert forall i :: 0 <= i < |init| ==> rows[i] == init[i];
    }
  }

  lemma ViewOfMember(rows: seq<Row>)
    requires DistinctPaths(rows)
    ensures forall r :: r in rows ==> r.path in ViewOf(rows) && ViewOf(rows)[r.path] == r.entry
    ensures forall p :: p in ViewOf(rows) ==> exists r :: r in rows && r.path == p
  {
    ViewOfExact(rows);
    forall p | p in ViewOf(rows) ensures exists r :: r in rows && r.path == p {
      var i :| 0 <= i < |rows| && rows[i].path == p;
      assert rows[i] in rows;
    }
  }

  // With ids ascending, paths are distinct when no path has two rows.
  lemma DistinctByMember(rows: seq<Row>)
    requires forall i, j :: 0 <= i < j < |rows| ==> rows[i].id < rows[j].id
    ensures DistinctPaths(rows) <==> forall r, q :: r in rows && q in rows && r.path == q.path ==> r == q
  {
    if DistinctPaths(rows) {
      forall r, q | r in rows && q in rows && r.path == q.path ensures r == q {
        var i :| 0 <= i < |rows| && rows[i] == r;
        var j :| 0 <= j < |rows| && rows[j] == q;
        assert i == j;
      }
    }
  }

  // Rows that agree on everything but ids mean the same.
  ghost predicate SameButIds(a: seq<Row>, b: seq<Row>) {
    |a| == |b| && forall i :: 0 <= i < |a| ==> a[i].path == b[i].path && a[i].entry == b[i].entry
  }

  lemma {:induction false} SameButIdsSameView(a: seq<Row>, b: seq<Row>)
    requires SameButIds(a, b)
    ensures ViewOf(a) == ViewOf(b)
    ensures DistinctPaths(a) <==> DistinctPaths(b)
  {
    if |a| != 0 {
      SameButIdsSameView(a[..|a| - 1], b[..|b| - 1]);
    }
  }

  // ---------------------------------------------------------------- gram queries

  function Elements(ids: seq<nat>): set<nat> { set x | x in ids }

  function BasePostings(segs: seq<Segment>, g: Gram): set<nat> {
    if |segs| == 0 then {}
    else BasePostings(segs[..|segs| - 1], g) + Elements(segs[|segs| - 1].Lookup(g))
  }

  // Candidate ids for a gram: base postings and overlay postings, less the
  // delete-set (search/executor.rs:197-210).
  function Query(s: Snapshot, g: Gram): set<nat> {
    BasePostings(s.segs, g) + Elements(s.overlay.Lookup(g)) - s.deleted
  }

  // ---------------------------------------------------------------- well-formedness

  function SumSizes(docs: seq<Doc>): nat {
    if |docs| == 0 then 0 else SumSizes(docs[..|docs| - 1]) + docs[|docs| - 1].size
  }

  function DocSizes(docs: seq<Doc>): (r: seq<nat>)
    ensures |r| == |docs| && forall i :: 0 <= i < |r| ==> r[i] == docs[i].size
  {
    seq(|docs|, i requires 0 <= i < |docs| => docs[i].size)
  }

  // How many base documents there are, hidden ones included.
  function DocCount(segs: seq<Segment>): nat {
    if |segs| == 0 then 0 else DocCount(segs[..|segs| - 1]) + |segs[|segs| - 1].docs|
  }

  ghost predicate SegWF(seg: Segment) {
    && |seg.docs| > 0
    && (forall i :: 0 <= i < |seg.docs| ==> seg.docs[i].id == seg.base + i)
    && (forall g :: g in seg.postings ==> Ascending(seg.postings[g]))
    && (forall g, x :: g in seg.postings && x in seg.postings[g] ==> seg.base <= x < seg.End())
    && (seg.docBytes.Some? ==> seg.docBytes.value == SumSizes(seg.docs))
  }

  ghost predicate SegsWF(segs: seq<Segment>) {
    && (forall k :: 0 <= k < |segs| ==> SegWF(segs[k]) && segs[k].End() <= MAX_TOTAL_DOCS)
    && (forall k, l :: 0 <= k < l < |segs| ==> segs[k].End() <= segs[l].base)
  }

  // First id above every base document.
  function Limit(segs: seq<Segment>): nat { if |segs| == 0 then 0 else segs[|segs| - 1].End() }

  ghost predicate BaseId(segs: seq<Segment>, id: nat) {
    exists k :: 0 <= k < |segs| && segs[k].base <= id < segs[k].End()
  }

  ghost predicate Posted(index: map<Gram, seq<nat>>, g: Gram, x: nat) { g in index && x in index[g] }

  ghost predicate Holds(docs: seq<OverlayDoc>, g: Gram, x: nat) {
    exists i :: 0 <= i < |docs| && docs[i].id == x && g in docs[i].grams
  }

  // The gram index of an overlay lists, for each gram, exactly the documents
  // that hold it, in strictly ascending order, and lists no gram emptily.
  ghost predicate Indexes(index: map<Gram, seq<nat>>, docs: seq<OverlayDoc>) {
    && (forall g :: g in index ==> Ascending(index[g]) && index[g] != [])
    && (forall g, x :: Posted(index, g, x) <==> Holds(docs, g, x))
  }

  // An overlay numbers its documents in ascending order from `baseCount` up;
  // `nextId` is above them all.
  ghost predicate OverlayOk(lx: Lexer, ov: Overlay) {
    && (forall i :: 0 <= i < |ov.docs| ==> ov.baseCount <= ov.docs[i].id < ov.nextId)
    && (forall i, j :: 0 <= i < j < |ov.docs| ==> ov.docs[i].id < ov.docs[j].id)
    && (forall i :: 0 <= i < |ov.docs| ==> ov.docs[i].grams == lx.grams(ov.docs[i].content))
    && Indexes(ov.gramIndex, ov.docs)
    && ov.baseCount <= ov.nextId <= U32_MAX
  }

  ghost predicate OverlayWF(lx: Lexer, ov: Overlay, limit: nat) {
    OverlayOk(lx, ov) && (ov.baseCount == limit || ov.docs == [])
  }

  lemma EmptyOverlayWF(lx: Lexer, limit: nat)
    ensures OverlayWF(lx, EmptyOverlay, limit)
  {
  }

  // Each layer is well formed and the overlay lies above the base: what the
  // operations need to run.
  ghost predicate LayersWF(lx: Lexer, s: Snapshot) {
    SegsWF(s.segs) && OverlayWF(lx, s.overlay, Limit(s.segs))
  }

  // And the layers fit together: only base documents are hidden, and no path
  // is live twice.
  ghost predicate SnapshotWF(lx: Lexer, s: Snapshot) {
    && LayersWF(lx, s)
    && (forall x :: x in s.deleted ==> BaseId(s.segs, x))
    && DistinctPaths(Rows(lx, s))
  }

  // ---------------------------------------------------------------- facts about rows

  lemma {:induction false} LimitBounds(segs: seq<Segment>)
    requires SegsWF(segs)
    ensures forall k :: 0 <= k < |segs| ==> segs[k].End() <= Limit(segs)
    ensures Limit(segs) <= MAX_TOTAL_DOCS
  {
    if |segs| != 0 {
      var last := |segs| - 1;
      forall k | 0 <= k < |segs| ensures segs[k].End() <= Limit(segs) {
        if k < last {
          assert segs[k].End() <= segs[last].base;
        }
      }
    }
  }

  lemma SegsWFPrefix(segs: seq<Segment>, n: nat)
    requires SegsWF(segs) && n <= |segs|
    ensures SegsWF(segs[..n]) && SegsWF(segs[n..])
  {
  }

  // The rows of the base are its documents, segment by segment.
  lemma {:induction false} AllRowsMember(segs: seq<Segment>, r: Row)
    ensures r in AllRows(segs) <==>
              exists k, i :: 0 <= k < |segs| && 0 <= i < |segs[k].docs| && r == DocRow(segs[k], segs[k].docs[i])
  {
    if |segs| != 0 {
      var n := |segs| - 1;
      AllRowsMember(segs[..n], r);
      if r in AllRows(segs) {
        if r in AllRows(segs[..n]) {
          var k, i :| 0 <= k < n && 0 <= i < |segs[..n][k].docs| && r == DocRow(segs[..n][k], segs[..n][k].docs[i]);
          assert segs[..n][k] == segs[k];
        } else {
          var i :| 0 <= i < |segs[n].docs| && SegRows(segs[n])[i] == r;
          assert r == DocRow(segs[n], segs[n].docs[i]);
        }
      }
      if k, i :| 0 <= k < |segs| && 0 <= i < |segs[k].docs| && r == DocRow(segs[k], segs[k].docs[i]) {
        if k < n {
          assert segs[..n][k] == segs[k];
        } else {
          assert SegRows(segs[n])[i] == r;
        }
      }
    }
  }

  lemma {:induction false} AllRowsAppend(a: seq<Segment>, b: seq<Segment>)
    ensures AllRows(a + b) == AllRows(a) + AllRows(b)
    decreases |b|
  {
    if |b| == 0 {
      assert a + b == a;
    } else {
      var n := |b| - 1;
      AllRowsAppend(a, b[..n]);
      assert (a + b)[..|a + b| - 1] == a + b[..n];
      assert (a + b)[|a + b| - 1] == b[n];
      calc {
        AllRows(a + b);
        AllRows(a + b[..n]) + SegRows(b[n]);
        (AllRows(a) + AllRows(b[..n])) + SegRows(b[n]);
        AllRows(a) + (AllRows(b[..n]) + SegRows(b[n]));
      }
    }
  }

  lemma {:induction false} KeepAppend(a: seq<Row>, b: seq<Row>, hidden: set<nat>)
    ensures Keep(a + b, hidden) == Keep(a, hidden) + Keep(b, hidden)
    decreases |b|
  {
    if |b| == 0 {
      assert a + b == a;
    } else {
      var n := |b| - 1;
      var tail := if b[n].id in hidden then [] else [b[n]];
      KeepAppend(a, b[..n], hidden);
      assert (a + b)[..|a + b| - 1] == a + b[..n];
      calc {
        Keep(a + b, hidden);
        Keep(a + b[..n], hidden) + tail;
        (Keep(a, hidden) + Keep(b[..n], hidden)) + tail;
        Keep(a, hidden) + (Keep(b[..n], hidden) + tail);
      }
    }
  }

  // Hiding nothing keeps everything.
  lemma {:induction false} KeepAll(rows: seq<Row>, hidden: set<nat>)
    requires forall r :: r in rows ==> r.id !in hidden
    ensures Keep(rows, hidden) == rows
  {
    if |rows| != 0 {
      var init := rows[..|rows| - 1];
      assert rows == init + [rows[|rows| - 1]];
      assert forall r :: r in init ==> r in rows;
      assert rows[|rows| - 1] in rows;
      KeepAll(init, hidden);
    }
  }

  // ---------------------------------------------------------------- queries are exact

  lemma {:induction false} BasePostingsMember(segs: seq<Segment>, g: Gram, x: nat)
    ensures x in BasePostings(segs, g) <==> exists k :: 0 <= k < |segs| && x in segs[k].Lookup(g)
  {
    if |segs| != 0 {
      var n := |segs| - 1;
      BasePostingsMember(segs[..n], g, x);
      assert forall k :: 0 <= k < n ==> segs[..n][k] == segs[k];
    }
  }

  // A posting in a base segment names one of its documents.
  lemma PostedRow(segs: seq<Segment>, k: nat, g: Gram, x: nat) returns (r: Row)
    requires SegsWF(segs) && k < |segs| && x in segs[k].Lookup(g)
    ensures r in AllRows(segs) && r.id == x && g in r.entry.grams
  {
    assert segs[k].base <= x < segs[k].End();
    r := DocRow(segs[k], segs[k].docs[x - segs[k].base]);
    AllRowsMember(segs, r);
  }

  lemma QueryFindsOnlyLive(lx: Lexer, s: Snapshot, g: Gram, x: nat) returns (r: Row)
    requires SnapshotWF(lx, s)
    requires x in Query(s, g)
    ensures r in Rows(lx, s) && r.id == x && g in r.entry.grams
  {
    if x in BasePostings(s.segs, g) {
      BasePostingsMember(s.segs, g, x);
      var k :| 0 <= k < |s.segs| && x in s.segs[k].Lookup(g);
      r := PostedRow(s.segs, k, g, x);
      KeepMember(AllRows(s.segs), s.deleted);
    } else {
      assert Posted(s.overlay.gramIndex, g, x);
      var i :| 0 <= i < |s.overlay.docs| && s.overlay.docs[i].id == x && g in s.overlay.docs[i].grams;
      r := OverlayRows(lx, s.overlay.docs)[i];
    }
  }

  lemma QueryFindsAllLive(lx: Lexer, s: Snapshot, g: Gram, r: Row)
    requires SnapshotWF(lx, s)
    requires r in Rows(lx, s) && g in r.entry.grams
    ensures r.id in Query(s, g)
  {
    BasePostingsMember(s.segs, g, r.id);
    if r in Keep(AllRows(s.segs), s.deleted) {
      KeepMember(AllRows(s.segs), s.deleted);
      AllRowsMember(s.segs, r);
      var k, i :| 0 <= k < |s.segs| && 0 <= i < |s.segs[k].docs| && r == DocRow(s.segs[k], s.segs[k].docs[i]);
      assert r.id in s.segs[k].Lookup(g);
    } else {
      assert r in OverlayRows(lx, s.overlay.docs);
      var i :| 0 <= i < |s.overlay.docs| && OverlayRows(lx, s.overlay.docs)[i] == r;
      LimitBounds(s.segs);
      assert !BaseId(s.segs, r.id);
      assert Holds(s.overlay.docs, g, r.id);
      assert Posted(s.overlay.gramIndex, g, r.id);
    }
  }

  // The paths a gram query leads to.
  ghost function QueryPaths(lx: Lexer, s: Snapshot, g: Gram): set<Path> {
    set r | r in Rows(lx, s) && r.id in Query(s, g) :: r.path
  }

  // Main query theorem: reading base postings, overlay postings and the
  // delete-set gives exactly the paths whose indexed content holds the gram.
  lemma QueryExact(lx: Lexer, s: Snapshot, g: Gram)
    requires SnapshotWF(lx, s)
    ensures QueryPaths(lx, s, g) == set p | p in View(lx, s) && g in View(lx, s)[p].grams
  {
    ViewOfMember(Rows(lx, s));
    forall p ensures p in QueryPaths(lx, s, g) <==> p in View(lx, s) && g in View(lx, s)[p].grams {
      if p in QueryPaths(lx, s, g) {
        var r :| r in Rows(lx, s) && r.id in Query(s, g) && r.path == p;
        FoundHolds(lx, s, g, r);
      }
      if p in View(lx, s) && g in View(lx, s)[p].grams {
        var r :| r in Rows(lx, s) && r.path == p;
        QueryFindsAllLive(lx, s, g, r);
      }
    }
  }

  // A live row that is found holds the gram, since no id names two rows.
  lemma FoundHolds(lx: Lexer, s: Snapshot, g: Gram, r: Row)
    requires SnapshotWF(lx, s) && r in Rows(lx, s) && r.id in Query(s, g)
    ensures g in r.entry.grams
  {
    var rows := Rows(lx, s);
    IdsAscend(lx, s);
    var q := QueryFindsOnlyLive(lx, s, g, r.id);
    var i :| 0 <= i < |rows| && rows[i] == r;
    var j :| 0 <= j < |rows| && rows[j] == q;
    assert i == j;
  }

  // Live ids are strictly ascending, so no id names two documents.
  lemma IdsAscend(lx: Lexer, s: Snapshot)
    requires SegsWF(s.segs) && OverlayWF(lx, s.overlay, Limit(s.segs))
    ensures forall i, j :: 0 <= i < j < |Rows(lx, s)| ==> Rows(lx, s)[i].id < Rows(lx, s)[j].id
  {
    AllRowsAscend(s.segs);
    KeepMember(AllRows(s.segs), s.deleted);
    KeepAscend(AllRows(s.segs), s.deleted);
    var k := Keep(AllRows(s.segs), s.deleted);
    forall i | 0 <= i < |k| ensures k[i].id < Limit(s.segs) {
      assert k[i] in k;
      assert k[i] in AllRows(s.segs);
    }
  }

  lemma BaseRowBounds(segs: seq<Segment>, r: Row)
    requires SegsWF(segs) && r in AllRows(segs)
    ensures r.id < Limit(segs) && BaseId(segs, r.id)
  {
    AllRowsMember(segs, r);
    var k, i :| 0 <= k < |segs| && 0 <= i < |segs[k].docs| && r == DocRow(segs[k], segs[k].docs[i]);
    LimitBounds(segs);
    assert segs[k].base <= r.id < segs[k].End();
  }

  lemma {:induction false} AllRowsAscend(segs: seq<Segment>)
    requires SegsWF(segs)
    ensures forall i, j :: 0 <= i < j < |AllRows(segs)| ==> AllRows(segs)[i].id < AllRows(segs)[j].id
    ensures forall r :: r in AllRows(segs) ==> r.id < Limit(segs) && BaseId(segs, r.id)
  {
    forall r | r in AllRows(segs) ensures r.id < Limit(segs) && BaseId(segs, r.id) {
      BaseRowBounds(segs, r);
    }
    if |segs| != 0 {
      var n := |segs| - 1;
      var a := AllRows(segs[..n]);
      SegsWFPrefix(segs, n);
      AllRowsAscend(segs[..n]);
      forall i | 0 <= i < |a| ensures a[i].id < segs[n].base {
        assert a[i] in a;
        EarlierBelow(segs, a[i]);
      }
      AscendAppend(a, SegRows(segs[n]), segs[n].base);
    }
  }

  lemma AscendAppend(a: seq<Row>, b: seq<Row>, bound: nat)
    requires forall i, j :: 0 <= i < j < |a| ==> a[i].id < a[j].id
    requires forall i, j :: 0 <= i < j < |b| ==> b[i].id < b[j].id
    requires (forall i :: 0 <= i < |a| ==> a[i].id < bound) && forall j :: 0 <= j < |b| ==> bound <= b[j].id
    ensures forall i, j :: 0 <= i < j < |a + b| ==> (a + b)[i].id < (a + b)[j].id
  {
  }

  lemma EarlierBelow(segs: seq<Segment>, r: Row)
    requires SegsWF(segs) && |segs| > 0 && r in AllRows(segs[..|segs| - 1])
    ensures r.id < segs[|segs| - 1].base
  {
    var n := |segs| - 1;
    SegsWFPrefix(segs, n);
    BaseRowBounds(segs[..n], r);
    if n > 0 {
      assert segs[n - 1].End() <= segs[n].base;
    }
  }

  lemma {:induction false} KeepAscend(rows: seq<Row>, hidden: set<nat>)
    requires forall i, j :: 0 <= i < j < |rows| ==> rows[i].id < rows[j].id
    ensures forall i, j :: 0 <= i < j < |Keep(rows, hidden)| ==> Keep(rows, hidden)[i].id < Keep(rows, hidden)[j].id
  {
    if |rows| != 0 {
      var init := rows[..|rows| - 1];
      KeepMember(init, hidden);
      KeepAscend(init, hidden);
      var k := Keep(init, hidden);
      forall i | 0 <= i < |k| ensures k[i].id < rows[|rows| - 1].id {
        assert k[i] in k;
        var j :| 0 <= j < |init| && init[j] == k[i];
        assert rows[j].id < rows[|rows| - 1].id;
      }
    }
  }
}
