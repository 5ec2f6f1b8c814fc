// One open index: its snapshot, its pending edits, and committing them
// (commit.rs:60-275).
module Index {
  import opened Common
  import opened Snapshots
  import opened Overlays
  import opened Pending
  import opened Commit

  function VisibleOf(changed: set<Path>, classify: Path -> Outcome): set<Path> {
    set p | p in changed && classify(p).Indexed?
  }

  // Every path a commit resolves without producing a document.
  function RemovedOf(changed: set<Path>, gone: set<Path>, classify: Path -> Outcome): set<Path> {
    gone + (changed - VisibleOf(changed, classify))
  }

  // The overlay size a commit asks for.
  function Projected(s: Snapshot, changed: set<Path>, gone: set<Path>, classify: Path -> Outcome): nat {
    ProjectedOverlayDocCount(s.overlay, VisibleOf(changed, classify), RemovedOf(changed, gone, classify))
  }

  // More than half of a non-empty base.
  predicate OverCap(s: Snapshot, projected: nat) { DocCount(s.segs) > 0 && 2 * projected > DocCount(s.segs) }

  // First id left unused after a commit.
  function NextFreeId(s: Snapshot, changed: set<Path>, gone: set<Path>, classify: Path -> Outcome): nat {
    if Limit(s.segs) == s.overlay.baseCount then s.overlay.nextId + |VisibleOf(changed, classify)|
    else Limit(s.segs) + Projected(s, changed, gone, classify)
  }

  // Why a commit fails, if it does.
  function CommitError(s: Snapshot, changed: set<Path>, gone: set<Path>, classify: Path -> Outcome): Option<IndexError>
  {
    var projected := Projected(s, changed, gone, classify);
    if OverCap(s, projected) then Some(OverlayFull(projected, DocCount(s.segs)))
    else if NextFreeId(s, changed, gone, classify) > U32_MAX then Some(DocIdOverflow)
    else None
  }

  // A commit is refused exactly when the overlay it would leave exceeds half of
  // a non-empty base, or else when 32-bit ids do not suffice for it.
  lemma CommitErrorExactly(s: Snapshot, changed: set<Path>, gone: set<Path>, classify: Path -> Outcome)
    ensures var n, base := Projected(s, changed, gone, classify), DocCount(s.segs);
            var error := CommitError(s, changed, gone, classify);
            var last := if s.overlay.baseCount == Limit(s.segs)
                        then s.overlay.nextId + |set p | p in changed && classify(p).Indexed?| else Limit(s.segs) + n;
            if base > 0 && base < 2 * n then error == Some(OverlayFull(n, base))
            else if last > 0xFFFF_FFFF then error == Some(DocIdOverflow)
            else error == None
  {
  }

  // What a commit does to a snapshot, said without its overlay algorithm.
  ghost predicate IsCommitted(lx: Lexer, s: Snapshot, changed: set<Path>, gone: set<Path>, classify: Path -> Outcome,
                              s2: Snapshot)
  {
    && LayersWF(lx, s2)
    && (SnapshotWF(lx, s) ==>
          SnapshotWF(lx, s2) && View(lx, s2) == Committed(lx, View(lx, s), changed, gone, classify))
    && s2.segs == s.segs
    && s2.deleted == s.deleted + IdsWithPaths(s.segs, changed + gone)
    && |s2.overlay.docs| == Projected(s, changed, gone, classify)
  }

  lemma LimitIsMax(segs: seq<Segment>, limit: nat)
    requires SegsWF(segs)
    requires forall k :: 0 <= k < |segs| ==> segs[k].End() <= limit
    requires limit == 0 || exists k :: 0 <= k < |segs| && segs[k].End() == limit
    ensures limit == Limit(segs) && forall k :: 0 <= k < |segs| ==> segs[k].End() <= U32_MAX
  {
    LimitBounds(segs);
    if |segs| > 0 {
      assert SegWF(segs[|segs| - 1]);
    }
  }

  // Visible and removed paths are the touched ones, and each file read is one
  // visible path.
  lemma ReadsSplit(files: seq<NewFile>, changed: set<Path>, gone: set<Path>, classify: Path -> Outcome)
    requires Reads(files, changed, classify) && changed !! gone
    ensures VisibleOf(changed, classify) + RemovedOf(changed, gone, classify) == changed + gone
    ensures |files| == |VisibleOf(changed, classify)|
         == |VisibleOf(changed, classify) - RemovedOf(changed, gone, classify)|
  {
    var visible := VisibleOf(changed, classify);
    forall p ensures p in visible <==> exists i :: 0 <= i < |files| && files[i].path == p {
      if i :| 0 <= i < |files| && files[i].path == p {
        assert classify(files[i].path) == Indexed(files[i].content);
      }
    }
    ReadsCount(files, visible);
    assert visible - RemovedOf(changed, gone, classify) == visible;
  }

  lemma NextOverlaySize(lx: Lexer, s: Snapshot, files: seq<NewFile>, changed: set<Path>, gone: set<Path>,
                        classify: Path -> Outcome)
    requires Reads(files, changed, classify) && changed !! gone
    ensures |NextDocs(lx, Limit(s.segs), s.overlay, files, changed + gone)| == Projected(s, changed, gone, classify)
    ensures NextDocId(Limit(s.segs), s.overlay, files, changed + gone) == NextFreeId(s, changed, gone, classify)
  {
    ReadsSplit(files, changed, gone, classify);
  }

  // Read the changed files, check the cap, rebuild overlay and delete-set
  // (commit.rs:107-256).
  method CommitInner(lx: Lexer, s: Snapshot, changed: set<Path>, gone: set<Path>, classify: Path -> Outcome)
    returns (r: Result<Snapshot>, removed: set<Path>)
    requires LayersWF(lx, s) && changed !! gone
    ensures r.Err? <==> CommitError(s, changed, gone, classify).Some?
    ensures r.Err? ==> r.error == CommitError(s, changed, gone, classify).value
    ensures r.Ok? ==> IsCommitted(lx, s, changed, gone, classify, r.value)
    ensures removed == RemovedOf(changed, gone, classify)
  {
    var limit := BaseDocIdLimit(s.segs);
    var files, excluded, vanished := ReadChanged(changed, classify);
    var visible := changed - excluded - vanished;
    removed := gone + excluded + vanished;
    assert visible == VisibleOf(changed, classify) && removed == RemovedOf(changed, gone, classify);
    ReadsSplit(files, changed, gone, classify);
    NextOverlaySize(lx, s, files, changed, gone, classify);
    if limit.Err? {
      LimitBounds(s.segs);
      assert false;
    }
    LimitIsMax(s.segs, limit.value);
    LimitBounds(s.segs);
    var projected := ProjectedOverlayDocCount(s.overlay, visible, removed);
    var baseDocs := DocCount(s.segs);
    if baseDocs > 0 && 2 * projected > baseDocs {
      return Err(OverlayFull(projected, baseDocs)), removed;
    }
    var overlay := BuildIncremental(lx, limit.value, s.overlay, files, visible, removed);
    if overlay.Err? {
      return Err(overlay.error), removed;
    }
    var deleted := ComputeDeleteSet(s.segs, changed + gone, s.deleted);
    if SnapshotWF(lx, s) {
      CommitMeaning(lx, s, files, changed, gone, classify, overlay.value);
    }
    r := Ok(Snapshot(s.segs, deleted, overlay.value));
  }

  // ---------------------------------------------------------------- the index as an object

  class Index {
    const lx: Lexer
    const pending: PendingEdits
    var snapshot: Snapshot
    // What commits observed, kept for the next flush (flush.rs:55-68).
    var readEpoch: Option<nat>
    var nonDocPaths: set<Path>

    constructor (lx: Lexer, s: Snapshot)
      requires LayersWF(lx, s)
      ensures Valid() && fresh(pending) && pending.uncommitted == []
      ensures this.lx == lx && snapshot == s && readEpoch == None && nonDocPaths == {}
    {
      this.lx, snapshot, readEpoch, nonDocPaths := lx, s, None, {};
      pending := new PendingEdits();
    }

    ghost predicate Valid() reads this { LayersWF(lx, snapshot) }

    // flush.rs:72-87
    method NoteCommitForFlush(epoch: nat, paths: set<Path>)
      modifies this`readEpoch, this`nonDocPaths
      ensures readEpoch == if old(readEpoch).Some? then old(readEpoch) else Some(epoch)
      ensures nonDocPaths == old(nonDocPaths) + paths
    {
      if readEpoch.None? {
        readEpoch := Some(epoch);
      }
      nonDocPaths := nonDocPaths + paths;
    }

    // A flush drains the bookkeeping whether or not it then succeeds
    // (flush.rs:252-268).
    method TakeAnchorInputs() returns (epoch: Option<nat>, paths: set<Path>)
      modifies this`readEpoch, this`nonDocPaths
      ensures epoch == old(readEpoch) && paths == old(nonDocPaths)
      ensures readEpoch == None && nonDocPaths == {}
    {
      epoch, paths := readEpoch, nonDocPaths;
      readEpoch, nonDocPaths := None, {};
    }

    // Swap in a reopened snapshot (update.rs:279-307). Edits queued meanwhile
    // are drained and notified again, in order.
    method InstallRebuilt(s: Snapshot)
      modifies this, pending
      ensures snapshot == s && readEpoch == None && nonDocPaths == {} && (LayersWF(lx, s) ==> Valid())
      ensures pending.uncommitted == old(pending.uncommitted)
    {
      var changed, gone, drained := pending.TakeForCommit();
      snapshot := s;
      readEpoch, nonDocPaths := None, {};
      pending.Receive(drained);
    }

    // Commit what is pending (commit.rs:60-93). `lockFree` is the outcome of
    // taking write.lock, `epoch` the clock when reading starts, and `arriving`
    // the edits other threads notify while this commit runs.
    method CommitBatch(classify: Path -> Outcome, lockFree: bool, epoch: nat, arriving: seq<FileEdit>)
      returns (r: Result<()>)
      requires Valid()
      modifies this, pending
      ensures Valid()
      // Nothing pending, or another writer: nothing happens.
      ensures old(pending.uncommitted) == [] ==> r == Ok(()) && State() == old(State()) && pending.uncommitted == []
      ensures old(pending.uncommitted) != [] && !lockFree ==>
                r == Err(LockConflict) && State() == old(State()) && pending.uncommitted == old(pending.uncommitted)
      // Otherwise it fails exactly when `CommitError` says so.
      ensures old(pending.uncommitted) != [] && lockFree ==>
                var kinds := LastKinds(old(pending.uncommitted));
                var changed, gone := PathsOf(kinds, Changed), PathsOf(kinds, Deleted);
                var error := CommitError(old(snapshot), changed, gone, classify);
                && (error.Some? ==>
                      && r == Err(error.value) && State() == old(State())
                      && LastKinds(pending.uncommitted) == LastKinds(old(pending.uncommitted) + arriving))
                && (error.None? ==>
                      && r == Ok(()) && IsCommitted(lx, old(snapshot), changed, gone, classify, snapshot)
                      && pending.uncommitted == arriving
                      && readEpoch == (if old(readEpoch).Some? then old(readEpoch) else Some(epoch))
                      && nonDocPaths == old(nonDocPaths) + RemovedOf(changed, gone, classify))
    {
      if pending.uncommitted == [] {
        return Ok(());
      }
      if !lockFree {
        return Err(LockConflict);
      }
      var changed, gone, drained := pending.TakeForCommit();
      var guard := Some(drained);
      var next, removed := CommitInner(lx, snapshot, changed, gone, classify);
      pending.Receive(arriving);
      assert pending.uncommitted == arriving;
      if next.Ok? {
        snapshot := next.value;
        NoteCommitForFlush(epoch, removed);
        guard := None;
        r := Ok(());
      } else {
        r := Err(next.error);
      }
      if guard.Some? {
        pending.RequeueUncommitted(guard.value);
      }
    }

    ghost function State(): (Snapshot, Option<nat>, set<Path>) reads this { (snapshot, readEpoch, nonDocPaths) }
  }
}
