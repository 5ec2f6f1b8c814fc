// Accumulating documents and postings for one segment and writing it out
// (segment/segment_writer.rs).
module Writers {
  import opened Common
  import opened Snapshots
  import opened Disk

  datatype Writer = Writer(docs: seq<Doc>, pairs: seq<(Gram, nat)>)
  {
    function AddDocument(id: nat, path: Path, hash: nat, size: nat): Writer {
      this.(docs := docs + [Doc(id, path, hash, size)])
    }

    function AddGramPosting(g: Gram, id: nat): Writer { this.(pairs := pairs + [(g, id)]) }
  }

  const EmptyWriter := Writer([], [])

  // ---------------------------------------------------------------- sorting

  function InsertDoc(docs: seq<Doc>, d: Doc): seq<Doc> {
    if |docs| == 0 || docs[|docs| - 1].id <= d.id then docs + [d]
    else InsertDoc(docs[..|docs| - 1], d) + [docs[|docs| - 1]]
  }

  // A stable sort by document id.
  function SortDocs(docs: seq<Doc>): seq<Doc> {
    if |docs| == 0 then [] else InsertDoc(SortDocs(docs[..|docs| - 1]), docs[|docs| - 1])
  }

  ghost predicate DocsAscend(docs: seq<Doc>) { forall i, j :: 0 <= i < j < |docs| ==> docs[i].id < docs[j].id }

  lemma {:induction false} SortedAlready(docs: seq<Doc>)
    requires DocsAscend(docs)
    ensures SortDocs(docs) == docs
  {
    if |docs| != 0 {
      SortedAlready(docs[..|docs| - 1]);
    }
  }

  // The posting list of one gram: its ids sorted, repeats dropped.
  function Collect(pairs: seq<(Gram, nat)>, g: Gram): (ids: seq<nat>)
    ensures Ascending(ids)
  {
    if |pairs| == 0 then []
    else
      var rest := Collect(pairs[..|pairs| - 1], g);
      if pairs[|pairs| - 1].0 == g then InsertAscending(rest, pairs[|pairs| - 1].1) else rest
  }

  lemma {:induction false} CollectExact(pairs: seq<(Gram, nat)>, g: Gram, x: nat)
    ensures x in Collect(pairs, g) <==> (g, x) in pairs
  {
    if |pairs| != 0 {
      var init := pairs[..|pairs| - 1];
      assert pairs == init + [pairs[|pairs| - 1]];
      CollectExact(init, g, x);
    }
  }

  function PostingMap(pairs: seq<(Gram, nat)>): map<Gram, seq<nat>> {
    map g | g in (set i | 0 <= i < |pairs| :: pairs[i].0) :: Collect(pairs, g)
  }

  lemma PostingMapExact(pairs: seq<(Gram, nat)>)
    ensures forall g :: g in PostingMap(pairs) ==> Ascending(PostingMap(pairs)[g])
    ensures forall g: Gram, x: nat :: Posted(PostingMap(pairs), g, x) <==> (g, x) in pairs
  {
    forall g: Gram, x: nat ensures Posted(PostingMap(pairs), g, x) <==> (g, x) in pairs {
      CollectExact(pairs, g, x);
      if (g, x) in pairs {
        var i :| 0 <= i < |pairs| && pairs[i] == (g, x);
        assert pairs[i].0 in PostingMap(pairs);
      }
    }
  }

  // ---------------------------------------------------------------- writing

  // Document ids must be strictly increasing once sorted; gaps pass
  // (segment_writer.rs:179-192).
  function Serialize(w: Writer): Result<(seq<Doc>, map<Gram, seq<nat>>)> {
    var docs := SortDocs(w.docs);
    if exists i :: 0 <= i < |docs| - 1 && docs[i].id >= docs[i + 1].id then Err(IoFailed)
    else Ok((docs, PostingMap(w.pairs)))
  }

  lemma SerializeAscending(w: Writer)
    requires DocsAscend(w.docs)
    ensures Serialize(w) == Ok((w.docs, PostingMap(w.pairs)))
  {
    SortedAlready(w.docs);
  }

  ghost predicate InOrder(docs: seq<Doc>) { forall i, j :: 0 <= i < j < |docs| ==> docs[i].id <= docs[j].id }

  lemma {:induction false} InsertDocAdds(docs: seq<Doc>, d: Doc)
    ensures multiset(InsertDoc(docs, d)) == multiset(docs) + multiset{d}
  {
    if |docs| != 0 && docs[|docs| - 1].id > d.id {
      InsertDocAdds(docs[..|docs| - 1], d);
      assert docs == docs[..|docs| - 1] + [docs[|docs| - 1]];
    }
  }

  lemma {:induction false} InsertDocSorts(docs: seq<Doc>, d: Doc)
    requires InOrder(docs)
    ensures InOrder(InsertDoc(docs, d))
  {
    if |docs| != 0 && docs[|docs| - 1].id > d.id {
      var init, last := docs[..|docs| - 1], docs[|docs| - 1];
      var r := InsertDoc(init, d);
      InsertDocSorts(init, d);
      InsertDocAdds(init, d);
      forall i | 0 <= i < |r| ensures r[i].id <= last.id {
        assert r[i] in multiset(r);
        assert r[i] in init || r[i] == d;
      }
    }
  }

  lemma {:induction false} SortDocsSorts(docs: seq<Doc>)
    ensures multiset(SortDocs(docs)) == multiset(docs)
    ensures InOrder(SortDocs(docs))
  {
    if |docs| != 0 {
      SortDocsSorts(docs[..|docs| - 1]);
      InsertDocSorts(SortDocs(docs[..|docs| - 1]), docs[|docs| - 1]);
      InsertDocAdds(SortDocs(docs[..|docs| - 1]), docs[|docs| - 1]);
      assert docs == docs[..|docs| - 1] + [docs[|docs| - 1]];
    }
  }

  // Any writer: what is written are its documents in strictly ascending order,
  // and it is refused exactly when two of them have one id.
  lemma SerializeExactly(w: Writer)
    ensures Serialize(w).Ok? ==>
              multiset(Serialize(w).value.0) == multiset(w.docs) && DocsAscend(Serialize(w).value.0)
              && Serialize(w).value.1 == PostingMap(w.pairs)
    ensures Serialize(w).Err? ==> exists i, j :: 0 <= i < j < |w.docs| && w.docs[i].id == w.docs[j].id
  {
    SortDocsSorts(w.docs);
    if Serialize(w).Ok? {
      StepsAscend(SortDocs(w.docs));
    } else {
      RefusedTwice(w);
    }
  }

  lemma RefusedTwice(w: Writer)
    requires Serialize(w).Err?
    ensures exists j, k :: 0 <= j < k < |w.docs| && w.docs[j].id == w.docs[k].id
  {
    var docs := SortDocs(w.docs);
    SortDocsSorts(w.docs);
    var i :| 0 <= i < |docs| - 1 && docs[i].id >= docs[i + 1].id;
    SameIdTwice(docs, w.docs, i);
  }

  lemma StepsAscend(docs: seq<Doc>)
    requires forall i :: 0 <= i < |docs| - 1 ==> docs[i].id < docs[i + 1].id
    ensures DocsAscend(docs)
  {
    forall i, j | 0 <= i < j < |docs| ensures docs[i].id < docs[j].id {
      for k := i + 1 to j
        invariant i + 1 <= k <= j && docs[i].id < docs[k].id
      {
        assert docs[k].id < docs[k + 1].id;
      }
    }
  }

  // Two entries of one id in a rearrangement are two entries of that id.
  lemma SameIdTwice(sorted: seq<Doc>, docs: seq<Doc>, i: nat)
    requires multiset(sorted) == multiset(docs) && i + 1 < |sorted| && sorted[i].id == sorted[i + 1].id
    ensures exists j, k :: 0 <= j < k < |docs| && docs[j].id == docs[k].id
  {
    var a, b := sorted[i], sorted[i + 1];
    assert a in multiset(docs) && b in multiset(docs);
    var j :| 0 <= j < |docs| && docs[j] == a;
    if a != b {
      var k :| 0 <= k < |docs| && docs[k] == b;
      assert j < k || k < j;
    } else {
      assert sorted == sorted[..i] + [a, b] + sorted[i + 2..];
      assert multiset(docs)[a] >= 2;
      assert docs == docs[..j] + [a] + docs[j + 1..];
      assert a in docs[..j] || a in docs[j + 1..];
      if a in docs[..j] {
        var k :| 0 <= k < j && docs[k] == a;
      } else {
        var k :| 0 <= k < |docs| - j - 1 && docs[j + 1..][k] == a;
        assert docs[j + 1 + k] == a;
      }
    }
  }

  method WriteToDir(w: Writer, dir: Directory) returns (r: Result<SegmentRef>)
    requires dir.Valid()
    modifies dir
    ensures dir.Valid() && dir.manifest == old(dir.manifest) && dir.nextUid == old(dir.nextUid) + 1
    ensures Quiet(old(dir.past), dir.past, dir.manifest, old(dir.files), dir.files, old(dir.nextUid))
    ensures r.Ok? ==> Serialize(w).Ok?
    ensures old(dir.Working()) && Serialize(w).Ok? ==> r.Ok? && dir.Working()
    ensures r.Ok? ==> Written(r.value, old(dir.nextUid), Serialize(w).value.0, Serialize(w).value.1, dir.files)
  {
    var uid := dir.NewUid();
    var bytes := Serialize(w);
    if bytes.Err? {
      return Err(bytes.error);
    }
    var (docs, postings) := bytes.value;
    var ok := dir.Write(DictFile(uid), Dict(docs));
    if !ok {
      return Err(IoFailed);
    }
    ghost var p1, f1 := dir.past, dir.files;
    ok := dir.Write(PostFile(uid), Post(postings));
    QuietTrans(old(dir.past), p1, dir.past, dir.manifest, old(dir.files), f1, dir.files, uid, uid);
    if !ok {
      return Err(IoFailed);
    }
    r := Ok(SegmentRef(DictFile(uid), PostFile(uid), None, |docs|, Some(SumSizes(docs))));
  }

  // A segment reference whose two files hold `docs` and `postings`.
  ghost predicate Written(r: SegmentRef, uid: nat, docs: seq<Doc>, postings: map<Gram, seq<nat>>,
                          files: map<Name, File>)
  {
    && r == SegmentRef(DictFile(uid), PostFile(uid), None, |docs|, Some(SumSizes(docs)))
    && r.dict in files && files[r.dict] == Dict(docs)
    && r.post in files && files[r.post] == Post(postings)
  }
}
