// The index directory: files, the manifest that names the live ones, opening
// an index from them, and the primitive steps a durable write is made of.
// Every state the directory passes through is recorded, so that a crash
// between any two steps can be reasoned about.
module Disk {
  import opened Common
  import opened Snapshots

  // File names carry a unique id, standing for the random UUID of the original.
  datatype Name = DictFile(uid: nat) | PostFile(uid: nat) | DeletesFile(uid: nat) | TmpFile(uid: nat)

  datatype File =
    | Dict(docs: seq<Doc>)
    | Post(postings: map<Gram, seq<nat>>)
    | Deletes(ids: set<nat>)
    | Scratch // a temporary file, or one whose write was cut short

  datatype SegmentRef = SegmentRef(dict: Name, post: Name, baseDocId: Option<nat>, docCount: nat, docBytes: Option<nat>)

  datatype Manifest = Manifest(segments: seq<SegmentRef>, deletesFile: Option<Name>, baseCommit: Option<string>,
                               overlayGen: nat)

  datatype State = State(files: map<Name, File>, manifest: Option<Manifest>)

  // The files a manifest names.
  function Named(m: Manifest): set<Name> {
    (set k | 0 <= k < |m.segments| :: m.segments[k].dict)
    + (set k | 0 <= k < |m.segments| :: m.segments[k].post)
    + if m.deletesFile.Some? then {m.deletesFile.value} else {}
  }

  // ---------------------------------------------------------------- opening

  // One segment, placed after `prevEnd` (open.rs:103-229).
  function OpenSegment(files: map<Name, File>, r: SegmentRef, prevEnd: nat): Result<Segment> {
    if r.dict !in files || r.post !in files then Err(IoFailed)
    else if !files[r.dict].Dict? || !files[r.post].Post? then Err(CorruptIndex)
    else
      var docs := files[r.dict].docs;
      var base := if r.baseDocId.Some? then r.baseDocId.value else prevEnd;
      if base < prevEnd || base + |docs| > MAX_TOTAL_DOCS then Err(CorruptIndex)
      else if exists i :: 0 <= i < |docs| && docs[i].id != base + i then Err(CorruptIndex)
      else Ok(Segment(base, docs, files[r.post].postings, r.docBytes))
  }

  function OpenSegments(files: map<Name, File>, refs: seq<SegmentRef>): Result<seq<Segment>> {
    if |refs| == 0 then Ok([])
    else
      var before := OpenSegments(files, refs[..|refs| - 1]);
      if before.Err? then before
      else
        var last := OpenSegment(files, refs[|refs| - 1], Limit(before.value));
        if last.Err? then Err(last.error) else Ok(before.value + [last.value])
  }

  // The delete-set is a source of truth: if it is named and does not load,
  // opening fails (open.rs:297-306).
  function OpenDeletes(files: map<Name, File>, name: Option<Name>): Result<set<nat>> {
    if name.None? then Ok({})
    else if name.value !in files || !files[name.value].Deletes? then Err(CorruptIndex)
    else Ok(files[name.value].ids)
  }

  // The base segments a new process would see.
  function BaseOf(st: State): Result<seq<Segment>> {
    if st.manifest.None? then Err(IoFailed) else OpenSegments(st.files, st.manifest.value.segments)
  }

  // Opening an index: the snapshot a new process sees.
  function Load(st: State): Result<Snapshot> {
    var segs := BaseOf(st);
    if segs.Err? then Err(segs.error)
    else
      var deleted := OpenDeletes(st.files, st.manifest.value.deletesFile);
      if deleted.Err? then Err(deleted.error) else Ok(Snapshot(segs.value, deleted.value, EmptyOverlay))
  }

  // The manifest records how many documents each segment holds.
  ghost predicate CountsRight(st: State) {
    BaseOf(st).Ok? ==>
      forall k :: 0 <= k < |BaseOf(st).value| && k < |st.manifest.value.segments| ==>
        st.manifest.value.segments[k].docCount == |BaseOf(st).value[k].docs|
  }

  // The snapshot describes the base that is on disk.
  ghost predicate Synced(st: State, s: Snapshot) {
    BaseOf(st) == Ok(s.segs) && CountsRight(st)
  }

  // Two file maps that agree on some names.
  ghost predicate AgreeOn(f: map<Name, File>, g: map<Name, File>, names: set<Name>) {
    forall n :: n in names ==> (n in f <==> n in g) && (n in f ==> f[n] == g[n])
  }

  lemma {:induction false} OpenSegmentsFrame(f: map<Name, File>, g: map<Name, File>, refs: seq<SegmentRef>)
    requires forall k :: 0 <= k < |refs| ==> AgreeOn(f, g, {refs[k].dict, refs[k].post})
    ensures OpenSegments(f, refs) == OpenSegments(g, refs)
  {
    if |refs| != 0 {
      OpenSegmentsFrame(f, g, refs[..|refs| - 1]);
      var last := refs[|refs| - 1];
      assert AgreeOn(f, g, {last.dict, last.post});
      assert last.dict in {last.dict, last.post} && last.post in {last.dict, last.post};
    }
  }

  // Opening looks only at the files the manifest names.
  lemma LoadFrame(a: State, b: State)
    requires a.manifest == b.manifest
    requires a.manifest.Some? ==> AgreeOn(a.files, b.files, Named(a.manifest.value))
    ensures Load(a) == Load(b)
  {
    if a.manifest.Some? {
      var m := a.manifest.value;
      forall k | 0 <= k < |m.segments| ensures AgreeOn(a.files, b.files, {m.segments[k].dict, m.segments[k].post}) {
        assert m.segments[k].dict in Named(m) && m.segments[k].post in Named(m);
      }
      OpenSegmentsFrame(a.files, b.files, m.segments);
      if m.deletesFile.Some? {
        assert m.deletesFile.value in Named(m);
      }
    }
  }

  lemma {:induction false} OpenSegmentsShape(files: map<Name, File>, refs: seq<SegmentRef>)
    requires OpenSegments(files, refs).Ok?
    ensures |OpenSegments(files, refs).value| == |refs|
    ensures forall k :: 0 <= k < |refs| ==> refs[k].dict in files && refs[k].post in files
    ensures forall k :: 0 <= k <= |refs| ==> OpenSegments(files, refs[..k]) == Ok(OpenSegments(files, refs).value[..k])
  {
    if |refs| != 0 {
      var n := |refs| - 1;
      OpenSegmentsShape(files, refs[..n]);
      var segs := OpenSegments(files, refs).value;
      assert segs[..n] == OpenSegments(files, refs[..n]).value;
      forall k | 0 <= k <= |refs| ensures OpenSegments(files, refs[..k]) == Ok(segs[..k]) {
        if k <= n {
          assert refs[..n][..k] == refs[..k];
          assert segs[..n][..k] == segs[..k];
        } else {
          assert refs[..k] == refs && segs[..k] == segs;
        }
      }
    }
  }

  // What an opened base owes to the files: every segment has its two files, of
  // the right kind and whole, and their contents; it starts where recorded, or
  // where the one before ends, and never earlier; its documents are numbered
  // without gaps from there, within the ceiling.
  ghost predicate FromFiles(files: map<Name, File>, refs: seq<SegmentRef>, segs: seq<Segment>) {
    && |segs| == |refs|
    && forall k :: 0 <= k < |refs| ==> OneFromFiles(files, refs[k], segs[k], EndOfFirst(segs, k))
  }

  // Where the first `k` segments end.
  function EndOfFirst(segs: seq<Segment>, k: nat): nat {
    if 0 < k <= |segs| then segs[k - 1].base + |segs[k - 1].docs| else 0
  }

  ghost predicate OneFromFiles(files: map<Name, File>, r: SegmentRef, seg: Segment, prevEnd: nat) {
    && r.dict in files && files[r.dict] == Dict(seg.docs)
    && r.post in files && files[r.post] == Post(seg.postings) && seg.docBytes == r.docBytes
    && seg.base == (if r.baseDocId.Some? then r.baseDocId.value else prevEnd)
    && prevEnd <= seg.base && seg.base + |seg.docs| <= 50_000_000
    && forall i :: 0 <= i < |seg.docs| ==> seg.docs[i].id == seg.base + i
  }

  lemma OpensOneExactly(files: map<Name, File>, r: SegmentRef, seg: Segment, prevEnd: nat)
    ensures OpenSegment(files, r, prevEnd) == Ok(seg) <==> OneFromFiles(files, r, seg, prevEnd)
  {
  }

  lemma FromFilesSnoc(files: map<Name, File>, refs: seq<SegmentRef>, r: SegmentRef, segs: seq<Segment>, seg: Segment)
    ensures FromFiles(files, refs + [r], segs + [seg]) <==>
              FromFiles(files, refs, segs) && OneFromFiles(files, r, seg, Limit(segs))
  {
    var more, all := refs + [r], segs + [seg];
    if |refs| == |segs| {
      forall k | 0 <= k < |refs|
        ensures more[k] == refs[k] && all[k] == segs[k] && EndOfFirst(all, k) == EndOfFirst(segs, k)
      {
      }
      assert more[|refs|] == r && all[|segs|] == seg && EndOfFirst(all, |refs|) == Limit(segs);
      if FromFiles(files, more, all) {
        assert OneFromFiles(files, more[|refs|], all[|refs|], EndOfFirst(all, |refs|));
        forall k | 0 <= k < |refs| ensures OneFromFiles(files, refs[k], segs[k], EndOfFirst(segs, k)) {
          assert OneFromFiles(files, more[k], all[k], EndOfFirst(all, k));
        }
      }
    }
  }

  // Opening gives these segments exactly when the files hold them.
  lemma {:induction false} OpensExactly(files: map<Name, File>, refs: seq<SegmentRef>, segs: seq<Segment>)
    ensures OpenSegments(files, refs) == Ok(segs) <==> FromFiles(files, refs, segs)
  {
    if |refs| != 0 && |segs| != 0 {
      var n, m := |refs| - 1, |segs| - 1;
      OpensExactly(files, refs[..n], segs[..m]);
      OpensOneExactly(files, refs[n], segs[m], Limit(segs[..m]));
      FromFilesSnoc(files, refs[..n], refs[n], segs[..m], segs[m]);
      OpenOneMore(files, refs[..n], refs[n]);
      assert refs[..n] + [refs[n]] == refs && segs[..m] + [segs[m]] == segs;
    }
  }

  // Opening an index: exactly when every file the manifest names is there,
  // whole and of its kind, and fits its place. A named delete-set is never
  // taken for empty.
  lemma LoadsExactly(st: State, s: Snapshot)
    ensures Load(st) == Ok(s) <==>
              && st.manifest.Some? && FromFiles(st.files, st.manifest.value.segments, s.segs)
              && s.overlay == EmptyOverlay
              && match st.manifest.value.deletesFile
                 case None => s.deleted == {}
                 case Some(n) => n in st.files && st.files[n] == Deletes(s.deleted)
  {
    if st.manifest.Some? {
      OpensExactly(st.files, st.manifest.value.segments, s.segs);
    }
  }

  predicate WholeFor(m: Manifest, n: Name, f: File) {
    && ((exists k :: 0 <= k < |m.segments| && m.segments[k].dict == n) ==> f.Dict?)
    && ((exists k :: 0 <= k < |m.segments| && m.segments[k].post == n) ==> f.Post?)
    && (m.deletesFile == Some(n) ==> f.Deletes?)
  }

  // One named file that is missing, cut short or of another kind, and nothing
  // opens.
  lemma MissingFileFails(st: State, n: Name)
    requires st.manifest.Some? && n in Named(st.manifest.value)
    requires n !in st.files || !WholeFor(st.manifest.value, n, st.files[n])
    ensures Load(st).Err?
  {
    if Load(st).Ok? {
      var m, s := st.manifest.value, Load(st).value;
      LoadsExactly(st, s);
      forall k | 0 <= k < |m.segments| && (n == m.segments[k].dict || n == m.segments[k].post)
        ensures OneFromFiles(st.files, m.segments[k], s.segs[k], EndOfFirst(s.segs, k))
      {
      }
      assert false;
    }
  }

  // Segments named before `uid` was handed out open as they did.
  lemma OldSegmentsOpen(f0: map<Name, File>, f1: map<Name, File>, m: Manifest, uid: nat)
    requires OnlyNewUids(f1, f0, uid) && forall n: Name :: n in Named(m) ==> n.uid < uid
    ensures OpenSegments(f1, m.segments) == OpenSegments(f0, m.segments)
  {
    assert forall k :: 0 <= k < |m.segments| ==> m.segments[k].dict in Named(m) && m.segments[k].post in Named(m);
    OpenSegmentsFrame(f1, f0, m.segments);
  }

  // Nothing changed for anyone opening the index.
  ghost predicate SameIndex(a: State, b: State) {
    a.manifest == b.manifest && Load(a) == Load(b) && BaseOf(a) == BaseOf(b)
  }

  lemma OpenOneMore(files: map<Name, File>, refs: seq<SegmentRef>, last: SegmentRef)
    ensures OpenSegments(files, refs).Err? ==> OpenSegments(files, refs + [last]) == OpenSegments(files, refs)
    ensures OpenSegments(files, refs).Ok? ==>
              var segs := OpenSegments(files, refs).value;
              var seg := OpenSegment(files, last, Limit(segs));
              OpenSegments(files, refs + [last]) == if seg.Err? then Err(seg.error) else Ok(segs + [seg.value])
  {
    assert (refs + [last])[..|refs|] == refs;
  }

  // The same files under the manifest's names, the same base.
  lemma BaseFrame(a: State, b: State)
    requires a.manifest == b.manifest
    requires a.manifest.Some? ==> AgreeOn(a.files, b.files, Named(a.manifest.value))
    ensures BaseOf(a) == BaseOf(b) && (CountsRight(a) <==> CountsRight(b))
  {
    if a.manifest.Some? {
      var m := a.manifest.value;
      forall k | 0 <= k < |m.segments| ensures AgreeOn(a.files, b.files, {m.segments[k].dict, m.segments[k].post}) {
        assert m.segments[k].dict in Named(m) && m.segments[k].post in Named(m);
      }
      OpenSegmentsFrame(a.files, b.files, m.segments);
    }
  }

  // ---------------------------------------------------------------- the directory as an object

  class Directory {
    var files: map<Name, File>
    var manifest: Option<Manifest>
    var nextUid: nat
    // How the system calls turn out, in the order in which they are made.
    const works: nat -> bool
    var calls: nat
    // Every state the directory has been in, oldest first.
    ghost var past: seq<State>

    constructor (works: nat -> bool)
      ensures Valid() && files == map[] && manifest == None
      ensures past == [Now()] && this.works == works && calls == 0
    {
      files, manifest, nextUid, this.works, calls := map[], None, 0, works, 0;
      past := [State(map[], None)];
    }

    // From here on every system call succeeds.
    ghost predicate Working() reads this { forall k :: k >= calls ==> works(k) }

    method Call() returns (ok: bool)
      modifies this`calls
      ensures old(Working()) ==> ok && Working()
    {
      ok := works(calls);
      calls := calls + 1;
    }

    ghost function Now(): State reads this { State(files, manifest) }

    // Ids are handed out once, so a new name is neither on disk nor in the manifest.
    ghost predicate Valid() reads this {
      && (forall n :: n in files ==> n.uid < nextUid)
      && (manifest.Some? ==> forall n :: n in Named(manifest.value) ==> n.uid < nextUid && !n.TmpFile?)
      && past != [] && past[|past| - 1] == Now()
    }

    method NewUid() returns (uid: nat)
      requires Valid()
      modifies this`nextUid
      ensures Valid() && uid == old(nextUid) && nextUid == uid + 1
    {
      uid := nextUid;
      nextUid := nextUid + 1;
    }

    // Write a file under a new name. The write is not atomic, and may fail
    // after leaving the file cut short.
    method Write(name: Name, contents: File) returns (ok: bool)
      requires Valid() && name.uid < nextUid
      modifies this`files, this`past, this`calls
      ensures Valid() && (old(Working()) ==> ok && Working())
      ensures files == old(files)[name := if ok then contents else Scratch]
      ensures Quiet(old(past), past, manifest, old(files), files, name.uid)
    {
      ghost var p0, f0 := past, files;
      files := files[name := Scratch];
      past := past + [Now()];
      QuietStep(p0, manifest, f0, files, name.uid);
      ok := Call();
      if ok {
        ghost var p1, f1 := past, files;
        files := files[name := contents];
        past := past + [Now()];
        QuietStep(p1, manifest, f1, files, name.uid);
        QuietTrans(p0, p1, past, manifest, f0, f1, files, name.uid, name.uid);
      }
    }

    // Write a delete-set under a temporary name and rename it into place
    // (deletes_idx.rs:179-198).
    method WriteDeletes(ids: set<nat>) returns (ok: bool, name: Name)
      requires Valid()
      modifies this
      ensures Valid() && manifest == old(manifest) && nextUid == old(nextUid) + 2
      ensures old(Working()) ==> ok && Working()
      ensures Quiet(old(past), past, manifest, old(files), files, old(nextUid))
      ensures name == DeletesFile(old(nextUid))
      ensures ok ==> name in files && files[name] == Deletes(ids)
    {
      name := DeletesFile(nextUid);
      var tmp := TmpFile(nextUid + 1);
      nextUid := nextUid + 2;
      ok := WriteThenRename(tmp, name, Deletes(ids));
      if ok {
        ok := Call(); // syncing the directory may still fail
      }
    }

    method WriteThenRename(tmp: Name, name: Name, contents: File) returns (ok: bool)
      requires Valid() && name.uid < tmp.uid < nextUid && tmp.TmpFile?
      modifies this`files, this`past, this`calls
      ensures Valid() && (old(Working()) ==> ok && Working())
      ensures ok ==> name in files && files[name] == contents
      ensures Quiet(old(past), past, manifest, old(files), files, name.uid)
    {
      ghost var p0, f0 := past, files;
      ok := Write(tmp, contents);
      QuietFrom(p0, past, manifest, f0, files, tmp.uid, name.uid);
      if ok {
        ghost var p1, f1 := past, files;
        ok := Rename(tmp, name, contents);
        QuietTrans(p0, p1, past, manifest, f0, f1, files, name.uid, name.uid);
      }
    }

    // Rename a file, atomically, to a name not yet taken.
    method Rename(tmp: Name, name: Name, contents: File) returns (ok: bool)
      requires Valid() && name.uid < tmp.uid < nextUid && tmp.TmpFile? && tmp in files && files[tmp] == contents
      modifies this`files, this`past, this`calls
      ensures Valid() && (old(Working()) ==> ok && Working())
      ensures files == if ok then old(files)[name := contents] - {tmp} else old(files)
      ensures Quiet(old(past), past, manifest, old(files), files, name.uid)
    {
      ghost var p1, f1 := past, files;
      ok := Call();
      if ok {
        files := files[name := contents] - {tmp};
        past := past + [Now()];
        QuietStep(p1, manifest, f1, files, name.uid);
      }
    }

    // Replace the manifest by writing a temporary file and renaming it
    // (manifest.rs:233-258). Either the manifest is replaced whole or not at all.
    method SaveManifest(m: Manifest) returns (ok: bool, ghost before: seq<State>, ghost f: map<Name, File>)
      requires Valid() && forall n: Name :: n in Named(m) ==> n.uid < nextUid && !n.TmpFile?
      modifies this
      ensures Valid() && nextUid == old(nextUid) + 1 && (old(Working()) ==> ok && Working())
      ensures manifest == if ok then Some(m) else old(manifest)
      ensures OnlyNewUids(files, old(files), old(nextUid))
      ensures Quiet(old(past), before, old(manifest), old(files), f, old(nextUid))
      ensures past == if ok then before + [Now()] else before
    {
      var tmp := TmpFile(nextUid);
      nextUid := nextUid + 1;
      ok := Write(tmp, Scratch);
      before, f := past, files;
      if ok {
        ok := Call();
        if ok {
          files, manifest := files - {tmp}, Some(m);
          past := past + [Now()];
        }
      }
    }

    // The end of every durable write: replace the manifest, collect garbage,
    // open the result. An error after the manifest was replaced (syncing the
    // directory, listing it, reopening) is reported although it took effect.
    // `cut` is where, in the recorded states, the new manifest takes over; it
    // is `|past|` when it never does.
    method Publish(m: Manifest) returns (r: Result<Snapshot>, ghost cut: nat)
      requires Valid() && forall n: Name :: n in Named(m) ==> n.uid < nextUid && !n.TmpFile?
      modifies this
      ensures Valid() && CrashSafe(old(past), past, cut, Load(old(Now())), Load(Now()))
      ensures cut == |past| ==> SameIndex(old(Now()), Now()) && r == Err(IoFailed)
      ensures cut < |past| ==> manifest == Some(m) && AgreeOn(old(files), files, Named(m))
      ensures cut < |past| ==> r == Load(Now()) || r == Err(IoFailed)
      // With every call succeeding, it does take over and is reopened.
      ensures old(Working()) ==> cut < |past| && r == Load(Now()) && Working()
    {
      ghost var p0, st0, u0 := past, Now(), nextUid;
      var ok;
      ghost var before, f;
      ok, before, f := SaveManifest(m);
      QuietLoad(p0, before, st0, f, u0);
      cut := |before|;
      if !ok {
        LoadFrame(Now(), st0);
        BaseFrame(Now(), st0);
        return Err(IoFailed), cut;
      }
      LoadFrame(Now(), State(st0.files, Some(m)));
      ghost var p2 := past;
      r := CollectAndOpen(m);
      assert past[..|before|] == past[..|p2|][..|before|] == before;
      forall k | cut <= k < |past| ensures Load(past[k]) == Load(Now()) {
        if k < |p2| {
          assert past[k] == past[..|p2|][k] == p2[k];
        }
      }
    }

    // Collect garbage and open what is left: the index is the same throughout.
    method CollectAndOpen(m: Manifest) returns (r: Result<Snapshot>)
      requires Valid() && manifest == Some(m)
      modifies this`files, this`past, this`calls
      ensures Valid() && AgreeOn(files, old(files), Named(m)) && Load(Now()) == Load(old(Now()))
      ensures Grew(old(past), past) && forall k :: |old(past)| <= k < |past| ==> Load(past[k]) == Load(Now())
      ensures r == Load(Now()) || r == Err(IoFailed)
      ensures old(Working()) ==> r == Load(Now()) && Working()
    {
      ghost var p2, st2 := past, Now();
      GcOrphans(m);
      LoadFrame(Now(), st2);
      forall k | |p2| <= k < |past| ensures Load(past[k]) == Load(Now()) {
        LoadFrame(past[k], st2);
      }
      var ok := Call();
      r := if ok then Load(State(files, manifest)) else Err(IoFailed);
    }

    // Remove what the manifest does not name (manifest.rs:276-330). A removal
    // that fails is logged and skipped; one directory entry goes at a time.
    method GcOrphans(m: Manifest)
      requires Valid() && manifest == Some(m)
      modifies this`files, this`past, this`calls
      ensures Valid()
      ensures old(Working()) ==> Working() && files.Keys <= Named(m)
      ensures AgreeOn(files, old(files), Named(m)) && files.Keys <= old(files).Keys
      ensures |past| >= |old(past)| && past[..|old(past)|] == old(past)
      ensures forall k :: |old(past)| <= k < |past| ==>
                past[k].manifest == Some(m) && AgreeOn(past[k].files, old(files), Named(m))
    {
      var todo := files.Keys;
      while todo != {}
        invariant Valid() && AgreeOn(files, old(files), Named(m)) && files.Keys <= old(files).Keys
        invariant old(Working()) ==> Working() && files.Keys <= todo + Named(m)
        invariant |past| >= |old(past)| && past[..|old(past)|] == old(past)
        invariant forall k :: |old(past)| <= k < |past| ==>
                    past[k].manifest == Some(m) && AgreeOn(past[k].files, old(files), Named(m))
        decreases todo
      {
        var name :| name in todo;
        todo := todo - {name};
        if name.TmpFile? || name !in Named(m) {
          Remove(name, m);
        }
      }
    }

    method Remove(name: Name, m: Manifest)
      requires Valid() && manifest == Some(m) && name !in Named(m)
      modifies this`files, this`past, this`calls
      ensures Valid() && (old(Working()) ==> Working() && files == old(files) - {name})
      ensures files == old(files) || files == old(files) - {name}
      ensures past == old(past) || past == old(past) + [Now()]
    {
      var removed := Call();
      if removed {
        files := files - {name};
        past := past + [Now()];
      }
    }
  }

  // Files whose ids are below `uid` are as they were.
  ghost predicate OnlyNewUids(f: map<Name, File>, g: map<Name, File>, uid: nat) {
    forall n: Name :: n.uid < uid ==> (n in f <==> n in g) && (n in f ==> f[n] == g[n])
  }

  ghost predicate Grew(before: seq<State>, after: seq<State>) {
    |before| <= |after| && after[..|before|] == before
  }

  // The directory went from `f0` to `f1` through the states recorded since
  // `p0`, keeping the manifest and touching only names handed out from `uid` on.
  ghost predicate Quiet(p0: seq<State>, p1: seq<State>, manifest: Option<Manifest>, f0: map<Name, File>,
                        f1: map<Name, File>, uid: nat)
  {
    && Grew(p0, p1)
    && OnlyNewUids(f1, f0, uid)
    && forall k :: |p0| <= k < |p1| ==> p1[k].manifest == manifest && OnlyNewUids(p1[k].files, f0, uid)
  }

  // Among the states recorded since `p0`, those before `cut` open as `before`
  // and those from `cut` on open as `after`: whichever step a crash falls
  // after, opening the index gives one or the other.
  ghost predicate CrashSafe(p0: seq<State>, p1: seq<State>, cut: nat, before: Result<Snapshot>, after: Result<Snapshot>)
  {
    && Grew(p0, p1) && |p0| <= cut <= |p1|
    && (forall k :: |p0| <= k < cut ==> Load(p1[k]) == before)
    && (forall k :: cut <= k < |p1| ==> Load(p1[k]) == after)
  }

  // Invisible steps may precede a crash-safe publication.
  lemma CrashSafeAfter(p0: seq<State>, p1: seq<State>, p2: seq<State>, cut: nat, before: Result<Snapshot>,
                       after: Result<Snapshot>)
    requires Grew(p0, p1) && forall k :: |p0| <= k < |p1| ==> Load(p1[k]) == before
    requires CrashSafe(p1, p2, cut, before, after)
    ensures CrashSafe(p0, p2, cut, before, after)
  {
    forall k | |p0| <= k < cut ensures Load(p2[k]) == before {
      if k < |p1| {
        assert p2[..|p1|][k] == p1[k];
      }
    }
    assert p2[..|p0|] == p2[..|p1|][..|p0|];
  }

  lemma CrashSafeAfterQuiet(p0: seq<State>, p1: seq<State>, p2: seq<State>, cut: nat, st: State, f1: map<Name, File>,
                            uid: nat, after: Result<Snapshot>)
    requires Quiet(p0, p1, st.manifest, st.files, f1, uid)
    requires st.manifest.Some? ==> forall n: Name :: n in Named(st.manifest.value) ==> n.uid < uid
    requires CrashSafe(p1, p2, cut, Load(State(f1, st.manifest)), after)
    ensures CrashSafe(p0, p2, cut, Load(st), after)
  {
    QuietLoad(p0, p1, st, f1, uid);
    CrashSafeAfter(p0, p1, p2, cut, Load(st), after);
  }

  lemma QuietStep(p: seq<State>, manifest: Option<Manifest>, f0: map<Name, File>, f1: map<Name, File>, uid: nat)
    requires OnlyNewUids(f1, f0, uid)
    ensures Quiet(p, p + [State(f1, manifest)], manifest, f0, f1, uid)
  {
  }

  lemma QuietFrom(p0: seq<State>, p1: seq<State>, manifest: Option<Manifest>, f0: map<Name, File>,
                  f1: map<Name, File>, u1: nat, u0: nat)
    requires Quiet(p0, p1, manifest, f0, f1, u1) && u0 <= u1
    ensures Quiet(p0, p1, manifest, f0, f1, u0)
  {
  }

  lemma QuietTrans(p0: seq<State>, p1: seq<State>, p2: seq<State>, manifest: Option<Manifest>,
                   f0: map<Name, File>, f1: map<Name, File>, f2: map<Name, File>, u0: nat, u1: nat)
    requires Quiet(p0, p1, manifest, f0, f1, u0) && Quiet(p1, p2, manifest, f1, f2, u1) && u0 <= u1
    ensures Quiet(p0, p2, manifest, f0, f2, u0)
  {
    forall k | |p0| <= k < |p2| ensures p2[k].manifest == manifest && OnlyNewUids(p2[k].files, f0, u0) {
      if k < |p1| {
        assert p2[..|p1|][k] == p1[k];
      }
    }
    assert p2[..|p0|] == p2[..|p1|][..|p0|];
  }

  // Quiet steps are invisible to anyone opening the index.
  lemma QuietLoad(p0: seq<State>, p1: seq<State>, st: State, f1: map<Name, File>, uid: nat)
    requires Quiet(p0, p1, st.manifest, st.files, f1, uid)
    requires st.manifest.Some? ==> forall n: Name :: n in Named(st.manifest.value) ==> n.uid < uid
    ensures forall k :: |p0| <= k < |p1| ==> Load(p1[k]) == Load(st)
    ensures SameIndex(st, State(f1, st.manifest))
  {
    forall k | |p0| <= k < |p1| ensures Load(p1[k]) == Load(st) {
      LoadFrame(p1[k], st);
    }
    LoadFrame(State(f1, st.manifest), st);
    BaseFrame(State(f1, st.manifest), st);
  }
}
