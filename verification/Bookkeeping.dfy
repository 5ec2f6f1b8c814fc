// The paths that commits resolved without a document, kept for the next flush
// (flush.rs:55-87). `flush_overlay` takes an empty overlay with no such path
// for nothing to do (flush.rs:189); this is when that is right.
module Bookkeeping {
  import opened Common
  import opened Snapshots
  import opened Commit
  import opened Index
  import opened Disk
  import opened Runs

  // `paths` are those kept; `lost` those that a flush drained without
  // publishing anything (flush.rs:252-268), since the last durable step.
  datatype Notes = Notes(paths: set<Path>, lost: set<Path>)

  const NONE := Notes({}, {})

  // What an event that leads to `w2` does to the bookkeeping.
  function NotesNext(n: Notes, e: Event, w2: World): Notes {
    match e
    case Committing(changed, gone, classify) => n.(paths := n.paths + RemovedOf(changed, gone, classify))
    case Flushing(_) => NONE
    case Compacting(_, _, reopened) => if reopened && Load(w2.st).Ok? then NONE else n
    case Restarting => NONE
    case Failing(drained) => if drained then Notes({}, n.lost + n.paths) else n
  }

  function NotesAfter(n: Notes, worlds: seq<World>, events: seq<Event>): Notes
    requires |worlds| == |events| + 1
  {
    if |events| == 0 then n
    else
      var k := |events| - 1;
      NotesNext(NotesAfter(n, worlds[..k + 1], events[..k]), events[k], worlds[k + 1])
  }

  // Whatever was lost before, the paths noted before a run and after it.
  ghost predicate Tracks(before: set<Path>, worlds: seq<World>, events: seq<Event>, after: set<Path>) {
    && |worlds| == |events| + 1
    && forall lost {:trigger Notes(before, lost)} :: NotesAfter(Notes(before, lost), worlds, events).paths == after
  }

  lemma TracksNone(paths: set<Path>, w: World)
    ensures Tracks(paths, [w], [], paths)
  {
  }

  lemma TracksOne(paths: set<Path>, w: World, e: Event, w2: World)
    ensures Tracks(paths, [w, w2], [e], NotesNext(Notes(paths, {}), e, w2).paths)
  {
    forall lost
      ensures NotesAfter(Notes(paths, lost), [w, w2], [e]).paths == NotesNext(Notes(paths, {}), e, w2).paths
    {
      assert [w, w2][..1] == [w] && [e][..0] == [];
      assert NotesAfter(Notes(paths, lost), [w], []) == Notes(paths, lost);
    }
  }

  lemma {:induction false} NotesJoin(n: Notes, a: seq<World>, e: seq<Event>, b: seq<World>, f: seq<Event>)
    requires |a| == |e| + 1 && |b| == |f| + 1 && a[|e|] == b[0]
    ensures NotesAfter(n, a + b[1..], e + f) == NotesAfter(NotesAfter(n, a, e), b, f)
    decreases |f|
  {
    if |f| == 0 {
      assert a + b[1..] == a && e + f == e;
    } else {
      var k := |f| - 1;
      var c, g := a + b[1..], e + f;
      NotesJoin(n, a, e, b[..k + 1], f[..k]);
      assert c[..|g|] == a + b[..k + 1][1..] && g[..|g| - 1] == e + f[..k];
      assert c[|g|] == b[k + 1] && g[|g| - 1] == f[k];
    }
  }

  lemma TracksJoin(p: set<Path>, a: seq<World>, e: seq<Event>, q: set<Path>, b: seq<World>, f: seq<Event>, r: set<Path>)
    requires Tracks(p, a, e, q) && Tracks(q, b, f, r) && a[|e|] == b[0]
    ensures Tracks(p, a + b[1..], e + f, r)
  {
    forall lost ensures NotesAfter(Notes(p, lost), a + b[1..], e + f).paths == r {
      NotesJoin(Notes(p, lost), a, e, b, f);
      var mid := NotesAfter(Notes(p, lost), a, e);
      assert mid == Notes(q, mid.lost);
    }
  }

  function OverlayPaths(s: Snapshot): set<Path> { set d | d in s.overlay.docs :: d.path }

  // Away from the overlay, memory and disk differ in the paths noted or lost
  // and in no others, and memory has none of those.
  ghost predicate Accounted(n: Notes, s: Snapshot, spec: Spec) {
    spec.Spec? ==> forall p :: p !in OverlayPaths(s) ==> AccountedFor(n, spec, p)
  }

  ghost predicate AccountedFor(n: Notes, spec: Spec, p: Path)
    requires spec.Spec?
  {
    if p in n.paths + n.lost then p !in spec.live
    else spec.durable.Some? ==> Find(spec.live, p) == Find(spec.durable.value, p)
  }

  // ---------------------------------------------------------------- every step

  lemma RowOfPath(lx: Lexer, s: Snapshot, p: Path) returns (r: Row)
    requires DistinctPaths(Rows(lx, s)) && p in View(lx, s)
    ensures r in Rows(lx, s) && r.path == p
    ensures r !in AllRows(s.segs) ==> p in OverlayPaths(s)
    ensures r in AllRows(s.segs) && p !in OverlayPaths(s) ==> r.id !in s.deleted
  {
    ViewOfMember(Rows(lx, s));
    KeepMember(AllRows(s.segs), s.deleted);
    r :| r in Rows(lx, s) && r.path == p;
    if r in OverlayRows(lx, s.overlay.docs) {
      var i :| 0 <= i < |s.overlay.docs| && OverlayRows(lx, s.overlay.docs)[i] == r;
      assert s.overlay.docs[i] in s.overlay.docs;
    }
  }

  // A path read as a document is in the overlay afterwards.
  lemma IndexedIsInOverlay(lx: Lexer, s: Snapshot, changed: set<Path>, gone: set<Path>, classify: Path -> Outcome,
                           s2: Snapshot, p: Path)
    requires SnapshotWF(lx, s) && changed !! gone && IsCommitted(lx, s, changed, gone, classify, s2)
    requires p in changed && classify(p).Indexed?
    ensures p in OverlayPaths(s2)
  {
    var r := RowOfPath(lx, s2, p);
    if r in AllRows(s2.segs) {
      assert r.id in IdsWithPaths(s.segs, changed + gone);
    }
  }

  // A path in the overlay has no visible base document.
  lemma OverlayHides(lx: Lexer, s: Snapshot, r: Row)
    requires SnapshotWF(lx, s) && r in AllRows(s.segs) && r.path in OverlayPaths(s)
    ensures r.id in s.deleted
  {
    var i :| 0 <= i < |s.overlay.docs| && s.overlay.docs[i].path == r.path;
    var q := OverlayRows(lx, s.overlay.docs)[i];
    AllRowsAscend(s.segs);
    KeepMember(AllRows(s.segs), s.deleted);
    IdsAscend(lx, s);
    DistinctByMember(Rows(lx, s));
    assert q in Rows(lx, s) && q.path == r.path;
    assert r.id < Limit(s.segs) <= q.id;
  }

  lemma OverlayIsLive(lx: Lexer, s: Snapshot, p: Path)
    requires SnapshotWF(lx, s) && p in OverlayPaths(s)
    ensures p in View(lx, s)
  {
    var i :| 0 <= i < |s.overlay.docs| && s.overlay.docs[i].path == p;
    assert OverlayRows(lx, s.overlay.docs)[i] in Rows(lx, s);
    ViewOfMember(Rows(lx, s));
  }

  // And a path not touched stays in the overlay.
  lemma UntouchedStaysInOverlay(lx: Lexer, s: Snapshot, changed: set<Path>, gone: set<Path>, classify: Path -> Outcome,
                                s2: Snapshot, p: Path)
    requires SnapshotWF(lx, s) && changed !! gone && IsCommitted(lx, s, changed, gone, classify, s2)
    requires p in OverlayPaths(s) && p !in changed + gone
    ensures p in OverlayPaths(s2)
  {
    OverlayIsLive(lx, s, p);
    var r := RowOfPath(lx, s2, p);
    if r in AllRows(s.segs) {
      OverlayHides(lx, s, r);
    }
  }

  lemma CommitAccounts(lx: Lexer, n: Notes, w: World, spec: Spec, e: Event, w2: World)
    requires Refines(lx, w, spec) && e.Committing? && Step(lx, w, e, w2) && Accounted(n, w.mem, spec)
    ensures Accounted(NotesNext(n, e, w2), w2.mem, SpecNext(lx, spec, w, e))
  {
    if spec.Spec? {
      var spec2, n2 := SpecNext(lx, spec, w, e), NotesNext(n, e, w2);
      forall p | p !in OverlayPaths(w2.mem) ensures AccountedFor(n2, spec2, p) {
        if p in e.changed && e.classify(p).Indexed? {
          IndexedIsInOverlay(lx, w.mem, e.changed, e.gone, e.classify, w2.mem, p);
        } else if p !in e.changed + e.gone && p in OverlayPaths(w.mem) {
          UntouchedStaysInOverlay(lx, w.mem, e.changed, e.gone, e.classify, w2.mem, p);
        } else if p !in e.changed + e.gone {
          assert AccountedFor(n, spec, p);
        }
      }
    }
  }

  lemma CompactSpec(lx: Lexer, spec: Spec, w: World, e: Event)
    requires spec.Spec? && e.Compacting?
    ensures var spec2 := SpecNext(lx, spec, w, e);
            spec2.Spec? ==> spec2.live == spec.live && (spec2.durable.Some? ==> spec2.durable.value == spec2.live)
  {
  }

  // A compaction that is not installed leaves memory as it was.
  lemma CompactNotes(lx: Lexer, n: Notes, w: World, e: Event, w2: World)
    requires e.Compacting? && Step(lx, w, e, w2)
    ensures NotesNext(n, e, w2) == NONE || (NotesNext(n, e, w2) == n && w2.mem == w.mem)
  {
  }

  lemma CompactAccounts(lx: Lexer, n: Notes, w: World, spec: Spec, e: Event, w2: World)
    requires e.Compacting? && Step(lx, w, e, w2) && Accounted(n, w.mem, spec)
    ensures Accounted(NotesNext(n, e, w2), w2.mem, SpecNext(lx, spec, w, e))
  {
    if spec.Spec? {
      CompactSpec(lx, spec, w, e);
      CompactNotes(lx, n, w, e, w2);
      StillAccounted(n, w.mem, spec, NotesNext(n, e, w2), w2.mem, SpecNext(lx, spec, w, e));
    }
  }

  lemma StillAccounted(n: Notes, s: Snapshot, spec: Spec, n2: Notes, s2: Snapshot, spec2: Spec)
    requires spec.Spec? && Accounted(n, s, spec) && (n2 == NONE || (n2 == n && s2 == s))
    requires spec2.Spec? ==> spec2.live == spec.live && (spec2.durable.Some? ==> spec2.durable.value == spec2.live)
    ensures Accounted(n2, s2, spec2)
  {
    if spec2.Spec? {
      forall p | p !in OverlayPaths(s2) ensures AccountedFor(n2, spec2, p) {
        if n2 == n && s2 == s {
          assert AccountedFor(n, spec, p);
        }
      }
    }
  }

  lemma StepAccounts(lx: Lexer, n: Notes, w: World, spec: Spec, e: Event, w2: World)
    requires Refines(lx, w, spec) && Step(lx, w, e, w2) && Accounted(n, w.mem, spec)
    ensures Accounted(NotesNext(n, e, w2), w2.mem, SpecNext(lx, spec, w, e))
  {
    match e
    case Committing(_, _, _) => CommitAccounts(lx, n, w, spec, e, w2);
    case Compacting(_, _, _) => CompactAccounts(lx, n, w, spec, e, w2);
    case Failing(_) =>
      if spec.Spec? {
        assert forall p :: p !in OverlayPaths(w.mem) ==> AccountedFor(n, spec, p);
      }
    case Flushing(_) =>
    case Restarting =>
  }

  // ---------------------------------------------------------------- every run

  lemma {:induction false} RunAccounts(lx: Lexer, n: Notes, spec: Spec, worlds: seq<World>, events: seq<Event>)
    requires IsRun(lx, worlds, events) && Refines(lx, worlds[0], spec) && Accounted(n, worlds[0].mem, spec)
    ensures Accounted(NotesAfter(n, worlds, events), worlds[|events|].mem, SpecAfter(lx, spec, worlds, events))
  {
    if |events| != 0 {
      var k := |events| - 1;
      RunPrefix(lx, worlds, events);
      RunAccounts(lx, n, spec, worlds[..k + 1], events[..k]);
      RunRefines(lx, spec, worlds[..k + 1], events[..k]);
      StepAccounts(lx, NotesAfter(n, worlds[..k + 1], events[..k]), worlds[k],
                   SpecAfter(lx, spec, worlds[..k + 1], events[..k]), events[k], worlds[k + 1]);
    }
  }

  // A handle that has just opened an index owes nothing.
  lemma FreshIsAccounted(s: Snapshot, view: map<Path, Entry>, inStep: bool)
    ensures Accounted(NONE, s, Spec(view, Some(view), inStep))
  {
  }

  // Nothing in the overlay and no path noted: then, along every run, a new
  // process would see what memory holds if and only if none of the paths that
  // a failed flush drained is still indexed on disk.
  lemma NothingToFlushExactly(lx: Lexer, n: Notes, spec: Spec, worlds: seq<World>, events: seq<Event>)
    requires IsRun(lx, worlds, events) && Refines(lx, worlds[0], spec) && Accounted(n, worlds[0].mem, spec)
    requires var after := SpecAfter(lx, spec, worlds, events); after.Spec? && after.durable.Some?
    requires worlds[|events|].mem.overlay.docs == [] && NotesAfter(n, worlds, events).paths == {}
    ensures var w, lost := worlds[|events|], NotesAfter(n, worlds, events).lost;
            && Load(w.st).Ok?
            && (View(lx, w.mem) == View(lx, Load(w.st).value) <==> lost !! View(lx, Load(w.st).value).Keys)
  {
    RunAccounts(lx, n, spec, worlds, events);
    RunRefines(lx, spec, worlds, events);
    SameExactly(NotesAfter(n, worlds, events), worlds[|events|].mem, SpecAfter(lx, spec, worlds, events));
  }

  lemma SameExactly(n: Notes, s: Snapshot, spec: Spec)
    requires Accounted(n, s, spec) && spec.Spec? && spec.durable.Some? && s.overlay.docs == [] && n.paths == {}
    ensures spec.live == spec.durable.value <==> n.lost !! spec.durable.value.Keys
  {
    assert forall p :: AccountedFor(n, spec, p);
    if n.lost !! spec.durable.value.Keys {
      forall p ensures Find(spec.live, p) == Find(spec.durable.value, p) {
        assert AccountedFor(n, spec, p);
      }
      SameFinds(spec.live, spec.durable.value);
    } else {
      var p :| p in n.lost && p in spec.durable.value;
      assert AccountedFor(n, spec, p);
    }
  }

  // Without a failed flush nothing is lost.
  lemma {:induction false} NothingLost(n: Notes, worlds: seq<World>, events: seq<Event>)
    requires |worlds| == |events| + 1 && n.lost == {} && forall i :: 0 <= i < |events| ==> events[i] != Failing(true)
    ensures NotesAfter(n, worlds, events).lost == {}
  {
    if |events| != 0 {
      NothingLost(n, worlds[..|events|], events[..|events| - 1]);
    }
  }

  // So from an index just opened, and without a failed flush, nothing to do
  // means that a new process sees what memory holds.
  lemma NothingToFlushIsRight(lx: Lexer, worlds: seq<World>, events: seq<Event>)
    requires IsRun(lx, worlds, events) && SnapshotWF(lx, worlds[0].mem)
    requires Load(worlds[0].st) == Ok(worlds[0].mem) && Synced(worlds[0].st, worlds[0].mem)
    requires forall i :: 0 <= i < |events| ==> events[i] != Failing(true)
    requires var view := View(lx, worlds[0].mem);
             var after := SpecAfter(lx, Spec(view, Some(view), true), worlds, events);
             after.Spec? && after.durable.Some?
    requires worlds[|events|].mem.overlay.docs == [] && NotesAfter(NONE, worlds, events).paths == {}
    ensures var w := worlds[|events|]; Load(w.st).Ok? && View(lx, w.mem) == View(lx, Load(w.st).value)
  {
    var view := View(lx, worlds[0].mem);
    FreshIsAccounted(worlds[0].mem, view, true);
    NothingLost(NONE, worlds, events);
    NothingToFlushExactly(lx, NONE, Spec(view, Some(view), true), worlds, events);
  }

  // ---------------------------------------------------------------- where it fails

  // Any file of any index just opened: delete it, commit, fail to flush. The
  // next flush finds nothing to do, and a new process still finds the file.
  lemma DrainedDeletionIsLost(lx: Lexer, w: World, p: Path, classify: Path -> Outcome)
    returns (worlds: seq<World>, events: seq<Event>)
    requires SnapshotWF(lx, w.mem) && w.mem.overlay == EmptyOverlay && Load(w.st) == Ok(w.mem) && p in View(lx, w.mem)
    ensures events == [Committing({}, {p}, classify), Failing(true)]
    ensures IsRun(lx, worlds, events) && worlds[0] == w
    ensures worlds[2].mem.overlay.docs == [] && NotesAfter(NONE, worlds, events) == Notes({}, {p})
    ensures p !in View(lx, worlds[2].mem) && Load(worlds[2].st).Ok? && p in View(lx, Load(worlds[2].st).value)
  {
    var s2 := NextSnapshot(w.mem, {p}, EmptyOverlay);
    DeletesOnly(lx, w.mem, p, classify);
    var w2 := World(s2, w.st);
    events := [Committing({}, {p}, classify), Failing(true)];
    worlds := [w, w2, w2];
    TwoSteps(lx, w, events[0], w2, events[1], w2);
    TwoNotes(w, events[0], w2, events[1], w2);
  }

  lemma DeletesOnly(lx: Lexer, s: Snapshot, p: Path, classify: Path -> Outcome)
    requires SnapshotWF(lx, s) && s.overlay == EmptyOverlay
    ensures IsCommitted(lx, s, {}, {p}, classify, NextSnapshot(s, {p}, EmptyOverlay))
    ensures p !in View(lx, NextSnapshot(s, {p}, EmptyOverlay))
  {
    EmptyOverlayWF(lx, Limit(s.segs));
    assert {} + {p} == {p};
    CommitMeaning(lx, s, [], {}, {p}, classify, EmptyOverlay);
  }

  lemma TwoNotes(w0: World, e0: Event, w1: World, e1: Event, w2: World)
    ensures NotesAfter(NONE, [w0, w1, w2], [e0, e1]) == NotesNext(NotesNext(NONE, e0, w1), e1, w2)
  {
    assert [w0, w1, w2][..2] == [w0, w1] && [e0, e1][..1] == [e0];
    assert [w0, w1][..1] == [w0] && [e0][..0] == [];
    assert NotesAfter(NONE, [w0], []) == NONE;
    assert NotesAfter(NONE, [w0, w1], [e0]) == NotesNext(NONE, e0, w1);
  }
}
