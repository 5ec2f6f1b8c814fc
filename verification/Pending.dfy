// The buffer of edits waiting for a commit (pending.rs).
module Pending {
  import opened Snapshots

  datatype EditKind = Changed | Deleted

  datatype FileEdit = FileEdit(path: Path, kind: EditKind)

  // The last kind recorded for each path: what a list of edits asks for.
  function LastKinds(edits: seq<FileEdit>): map<Path, EditKind> {
    if |edits| == 0 then map[]
    else LastKinds(edits[..|edits| - 1])[edits[|edits| - 1].path := edits[|edits| - 1].kind]
  }

  function PathsOf(kinds: map<Path, EditKind>, kind: EditKind): set<Path> {
    set p | p in kinds && kinds[p] == kind
  }

  lemma {:induction false} LastKindsAppend(a: seq<FileEdit>, b: seq<FileEdit>)
    ensures LastKinds(a + b) == LastKinds(a) + LastKinds(b)
    decreases |b|
  {
    if |b| == 0 {
      assert a + b == a;
    } else {
      LastKindsAppend(a, b[..|b| - 1]);
      assert (a + b)[..|a + b| - 1] == a + b[..|b| - 1];
    }
  }

  class PendingEdits {
    var uncommitted: seq<FileEdit>

    constructor ()
      ensures uncommitted == []
    {
      uncommitted := [];
    }

    method NotifyChange(path: Path)
      modifies this
      ensures uncommitted == old(uncommitted) + [FileEdit(path, Changed)]
    {
      uncommitted := uncommitted + [FileEdit(path, Changed)];
    }

    method NotifyDelete(path: Path)
      modifies this
      ensures uncommitted == old(uncommitted) + [FileEdit(path, Deleted)]
    {
      uncommitted := uncommitted + [FileEdit(path, Deleted)];
    }

    // Edits that other threads notify.
    method Receive(edits: seq<FileEdit>)
      modifies this
      ensures uncommitted == old(uncommitted) + edits
    {
      for i := 0 to |edits|
        invariant uncommitted == old(uncommitted) + edits[..i]
      {
        assert edits[..i + 1] == edits[..i] + [edits[i]];
        match edits[i].kind
        case Changed => NotifyChange(edits[i].path);
        case Deleted => NotifyDelete(edits[i].path);
      }
      assert edits[..|edits|] == edits;
    }

    // Drain the buffer and fold it, last edit per path winning (pending.rs:89-120).
    method TakeForCommit() returns (newlyChanged: set<Path>, newlyDeleted: set<Path>, drained: seq<FileEdit>)
      modifies this
      ensures uncommitted == [] && drained == old(uncommitted)
      ensures newlyChanged == PathsOf(LastKinds(drained), Changed)
      ensures newlyDeleted == PathsOf(LastKinds(drained), Deleted)
    {
      drained := uncommitted;
      uncommitted := [];
      newlyChanged, newlyDeleted := {}, {};
      for i := 0 to |drained|
        invariant newlyChanged == PathsOf(LastKinds(drained[..i]), Changed)
        invariant newlyDeleted == PathsOf(LastKinds(drained[..i]), Deleted)
      {
        assert drained[..i + 1][..i] == drained[..i];
        match drained[i].kind
        case Changed =>
          newlyDeleted := newlyDeleted - {drained[i].path};
          newlyChanged := newlyChanged + {drained[i].path};
        case Deleted =>
          newlyChanged := newlyChanged - {drained[i].path};
          newlyDeleted := newlyDeleted + {drained[i].path};
      }
      assert drained[..|drained|] == drained;
    }

    // Put drained edits back ahead of newer ones, one edit per path
    // (pending.rs:136-158). What the buffer asks for is what the drained edits
    // followed by the newer ones ask for; its size is the number of paths.
    method RequeueUncommitted(edits: seq<FileEdit>)
      modifies this
      ensures LastKinds(uncommitted) == LastKinds(edits + old(uncommitted))
      ensures edits != [] ==> forall i, j :: 0 <= i < j < |uncommitted| ==> uncommitted[i].path != uncommitted[j].path
      ensures edits == [] ==> uncommitted == old(uncommitted)
    {
      if edits == [] {
        assert edits + uncommitted == uncommitted;
        return;
      }
      var combined := edits + uncommitted;
      var seen: set<Path>, deduped: seq<FileEdit> := {}, [];
      var i := |combined|;
      while i > 0
        invariant 0 <= i <= |combined|
        invariant LastKinds(deduped) == LastKinds(combined[i..])
        invariant seen == LastKinds(deduped).Keys
        invariant forall k :: 0 <= k < |deduped| ==> deduped[k].path in seen
        invariant forall k, l :: 0 <= k < l < |deduped| ==> deduped[k].path != deduped[l].path
      {
        i := i - 1;
        assert combined[i..] == [combined[i]] + combined[i + 1..];
        LastKindsAppend([combined[i]], combined[i + 1..]);
        if combined[i].path !in seen {
          LastKindsAppend([combined[i]], deduped);
          seen := seen + {combined[i].path};
          deduped := [combined[i]] + deduped;
        }
      }
      assert combined[0..] == combined;
      uncommitted := deduped;
    }
  }
}
