// Material for concrete examples: files in which no grams are found, segments
// of them, and what a directory that names those segments opens as.
module Plain {
  import opened Common
  import opened Snapshots
  import opened Disk
  import opened Flush
  import opened CompactPublish

  // A tokenizer that finds no grams: the documents alone make the point.
  const PLAIN := Lexer((c: Content) => {}, (c: Content) => 0)

  // A document of one byte.
  function PlainDoc(id: nat, name: string): Doc { Doc(id, Path(name), 0, 1) }

  // A segment, with its total recorded as the writer does it.
  function PlainSeg(base: nat, docs: seq<Doc>): Segment { Segment(base, docs, map[], Some(SumSizes(docs))) }

  function PlainRow(d: Doc): Row { Row(d.id, d.path, Entry(d.hash, d.size, {})) }

  function PlainRows(docs: seq<Doc>): (rows: seq<Row>)
    ensures |rows| == |docs| && forall i :: 0 <= i < |rows| ==> rows[i] == PlainRow(docs[i])
  {
    seq(|docs|, i requires 0 <= i < |docs| => PlainRow(docs[i]))
  }

  // ---------------------------------------------------------------- rows

  lemma PlainSegRows(base: nat, docs: seq<Doc>)
    ensures SegRows(PlainSeg(base, docs)) == PlainRows(docs)
  {
    forall i | 0 <= i < |docs| ensures PlainSeg(base, docs).GramsOf(docs[i].id) == {} {
    }
  }

  lemma RowsOfSegs(segs: seq<Segment>, last: Segment)
    ensures AllRows(segs + [last]) == AllRows(segs) + SegRows(last)
    ensures DocCount(segs + [last]) == DocCount(segs) + |last.docs|
  {
    assert (segs + [last])[..|segs|] == segs;
  }

  lemma TwoSegments(a: Segment, b: Segment)
    ensures AllRows([a]) == SegRows(a) && AllRows([a, b]) == SegRows(a) + SegRows(b)
    ensures DocCount([a, b]) == |a.docs| + |b.docs|
  {
    RowsOfSegs([], a);
    RowsOfSegs([a], b);
    assert [] + [a] == [a] && [a] + [b] == [a, b];
  }

  lemma KeepOne(r: Row, hidden: set<nat>)
    ensures Keep([r], hidden) == if r.id in hidden then [] else [r]
  {
    assert [r][..0] == [];
    assert Keep([r], hidden) == Keep([], hidden) + if r.id in hidden then [] else [r];
  }

  lemma KeepSnoc(rows: seq<Row>, r: Row, hidden: set<nat>)
    ensures Keep(rows + [r], hidden) == Keep(rows, hidden) + if r.id in hidden then [] else [r]
  {
    KeepAppend(rows, [r], hidden);
    KeepOne(r, hidden);
  }

  lemma TwoRows(rows: seq<Row>)
    requires |rows| == 2
    ensures ViewOf(rows).Keys == {rows[0].path, rows[1].path}
  {
    assert rows[..1][..0] == [];
    assert ViewOf(rows[..1]).Keys == {rows[0].path};
  }

  lemma ThreeRows(rows: seq<Row>)
    requires |rows| == 3
    ensures ViewOf(rows).Keys == {rows[0].path, rows[1].path, rows[2].path}
  {
    TwoRows(rows[..2]);
  }

  // ---------------------------------------------------------------- files and references

  // A reference to a segment whose two files carry the same id.
  function RefTo(uid: nat, seg: Segment): SegmentRef {
    SegmentRef(DictFile(uid), PostFile(uid), Some(seg.base), |seg.docs|, seg.docBytes)
  }

  function FilesOf(uid: nat, seg: Segment): map<Name, File> {
    map[DictFile(uid) := Dict(seg.docs), PostFile(uid) := Post(seg.postings)]
  }

  ghost predicate Holding(files: map<Name, File>, uid: nat, seg: Segment) {
    && DictFile(uid) in files && files[DictFile(uid)] == Dict(seg.docs)
    && PostFile(uid) in files && files[PostFile(uid)] == Post(seg.postings)
  }

  lemma OpenOne(files: map<Name, File>, uid: nat, seg: Segment, prevEnd: nat)
    requires Holding(files, uid, seg) && prevEnd <= seg.base && seg.End() <= MAX_TOTAL_DOCS && ProperIds(seg)
    ensures OpenSegment(files, RefTo(uid, seg), prevEnd) == Ok(seg)
  {
  }

  lemma OpenNext(files: map<Name, File>, refs: seq<SegmentRef>, segs: seq<Segment>, uid: nat, seg: Segment)
    requires OpenSegments(files, refs) == Ok(segs) && Holding(files, uid, seg) && ProperIds(seg)
    requires Limit(segs) <= seg.base && seg.End() <= MAX_TOTAL_DOCS
    ensures OpenSegments(files, refs + [RefTo(uid, seg)]) == Ok(segs + [seg])
  {
    OpenOne(files, uid, seg, Limit(segs));
    OpenOneMore(files, refs, RefTo(uid, seg));
  }

  lemma OpenFirst(files: map<Name, File>, uid: nat, seg: Segment)
    requires Holding(files, uid, seg) && seg.End() <= MAX_TOTAL_DOCS && ProperIds(seg)
    ensures OpenSegments(files, [RefTo(uid, seg)]) == Ok([seg])
  {
    OpenOne(files, uid, seg, 0);
    OpenOneMore(files, [], RefTo(uid, seg));
    assert [] + [RefTo(uid, seg)] == [RefTo(uid, seg)] && [] + [seg] == [seg];
  }

  lemma OpenTwo(files: map<Name, File>, u: nat, a: Segment, v: nat, b: Segment)
    requires Holding(files, u, a) && Holding(files, v, b) && a.End() <= b.base && b.End() <= MAX_TOTAL_DOCS
    requires ProperIds(a) && ProperIds(b)
    ensures OpenSegments(files, [RefTo(u, a), RefTo(v, b)]) == Ok([a, b])
  {
    OpenFirst(files, u, a);
    OpenNext(files, [RefTo(u, a)], [a], v, b);
    assert [RefTo(u, a)] + [RefTo(v, b)] == [RefTo(u, a), RefTo(v, b)] && [a] + [b] == [a, b];
  }

  lemma TwoBases(u: nat, a: Segment, v: nat, b: Segment)
    ensures BasesOf([RefTo(u, a), RefTo(v, b)]) == [a.base, b.base]
    ensures TotalDocs([RefTo(u, a), RefTo(v, b)]) == |a.docs| + |b.docs|
  {
    assert [RefTo(u, a), RefTo(v, b)][..1] == [RefTo(u, a)] && [RefTo(u, a)][..0] == [];
    assert BasesOf([RefTo(u, a)]) == BasesOf([]) + [a.base];
    assert TotalDocs([RefTo(u, a)]) == TotalDocs([]) + |a.docs|;
  }
}
