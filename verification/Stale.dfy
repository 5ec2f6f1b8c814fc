// A handle that lost its place. When its compaction was published but could
// not be reopened (compact.rs:311-322), it still holds the snapshot from
// before, and the guards of its next flush and of its next compaction compare
// only counts or base ids (delta_apply.rs:49-61, compact.rs:112-144), which can
// coincide. What such a durable step leaves on disk is said by
// `OpensFlushedOnto` and `OpensCompactedOnto`; here is what that means.
module Stale {
  import opened Common
  import opened Snapshots
  import opened Commit
  import opened CompactPlan
  import opened Compact
  import opened Flush

  // What a process opening `disk` sees of its base.
  function Shown(disk: Snapshot): seq<Row> { Keep(AllRows(disk.segs), disk.deleted) }

  function OverlayPaths(s: Snapshot): set<Path> { set d | d in s.overlay.docs :: d.path }

  // ---------------------------------------------------------------- a flush

  // Every document live on disk and not replaced by the overlay is still live.
  ghost predicate KeepsLiveRows(lx: Lexer, s: Snapshot, disk: Snapshot, result: Snapshot) {
    forall r :: r in Shown(disk) && r.path !in OverlayPaths(s) ==> r in Rows(lx, result)
  }

  // The handle hides no document that is live on disk, other than those its
  // overlay replaces.
  ghost predicate HidesOnlyReplaced(s: Snapshot, disk: Snapshot) {
    forall r :: r in AllRows(disk.segs) && r.id in s.deleted && r.id !in disk.deleted ==> r.path in OverlayPaths(s)
  }

  // A flush of any snapshot over any base keeps what is live there if and only
  // if the snapshot's delete-set hides none of it.
  lemma StaleFlushKeepsRows(lx: Lexer, s: Snapshot, disk: Snapshot, result: Snapshot)
    requires SnapshotWF(lx, s) && FitsOnto(s.overlay, disk.segs) && IsFlushedOnto(lx, s, disk.segs, result)
    ensures KeepsLiveRows(lx, s, disk, result) <==> HidesOnlyReplaced(s, disk)
  {
    FlushedRowsOnto(lx, s, disk.segs, result);
    KeepMember(AllRows(disk.segs), s.deleted);
    KeepMember(AllRows(disk.segs), disk.deleted);
    OverlayRowPaths(lx, s);
  }

  lemma OverlayRowPaths(lx: Lexer, s: Snapshot)
    ensures forall r :: r in OverlayRows(lx, s.overlay.docs) ==> r.path in OverlayPaths(s)
  {
    forall r | r in OverlayRows(lx, s.overlay.docs) ensures r.path in OverlayPaths(s) {
      var i :| 0 <= i < |s.overlay.docs| && OverlayRows(lx, s.overlay.docs)[i] == r;
      assert s.overlay.docs[i] in s.overlay.docs;
    }
  }

  // It lists no path twice if and only if the base documents it leaves visible
  // have distinct paths, none of them in the overlay.
  lemma StaleFlushListsOnce(lx: Lexer, s: Snapshot, disk: Snapshot, result: Snapshot)
    requires SnapshotWF(lx, s) && FitsOnto(s.overlay, disk.segs) && IsFlushedOnto(lx, s, disk.segs, result)
    ensures var visible := Keep(AllRows(disk.segs), s.deleted);
            DistinctPaths(Rows(lx, result))
            <==> DistinctPaths(visible) && forall r :: r in visible ==> r.path !in OverlayPaths(s)
  {
    FlushedRowsOnto(lx, s, disk.segs, result);
    DistinctAppend(Rows(lx, s), Keep(AllRows(s.segs), s.deleted), OverlayRows(lx, s.overlay.docs));
    DistinctAppend(Rows(lx, result), Keep(AllRows(disk.segs), s.deleted), OverlayRows(lx, s.overlay.docs));
    OverlayRowPaths(lx, s);
    forall d | d in s.overlay.docs ensures d.path in PathsOfRows(OverlayRows(lx, s.overlay.docs)) {
      assert OverlayRow(lx, d) in OverlayRows(lx, s.overlay.docs) by {
        var i :| 0 <= i < |s.overlay.docs| && s.overlay.docs[i] == d;
        assert OverlayRows(lx, s.overlay.docs)[i] == OverlayRow(lx, d);
      }
    }
  }

  function PathsOfRows(rows: seq<Row>): set<Path> { set r | r in rows :: r.path }

  lemma DistinctAppend(rows: seq<Row>, a: seq<Row>, b: seq<Row>)
    requires rows == a + b
    ensures DistinctPaths(rows) <==>
              DistinctPaths(a) && DistinctPaths(b) && forall r :: r in a ==> r.path !in PathsOfRows(b)
  {
    if DistinctPaths(rows) {
      assert forall i :: 0 <= i < |a| ==> rows[i] == a[i];
      forall i, j | 0 <= i < j < |b| ensures b[i].path != b[j].path {
        assert rows[|a| + i] == b[i] && rows[|a| + j] == b[j];
      }
      forall r, q | r in a && q in b ensures r.path != q.path {
        var i :| 0 <= i < |a| && a[i] == r;
        var j :| 0 <= j < |b| && b[j] == q;
        assert rows[i] == r && rows[|a| + j] == q;
      }
    }
    if DistinctPaths(a) && DistinctPaths(b) && forall r :: r in a ==> r.path !in PathsOfRows(b) {
      forall i, j | 0 <= i < j < |rows| ensures rows[i].path != rows[j].path {
        if j < |a| {
          assert rows[i] == a[i] && rows[j] == a[j];
        } else if |a| <= i {
          assert rows[i] == b[i - |a|] && rows[j] == b[j - |a|];
        } else {
          assert rows[i] == a[i] && rows[j] == b[j - |a|];
          assert a[i] in a && b[j - |a|] in b;
        }
      }
    }
  }

  // The result is the index on disk with the overlay in place of what it
  // replaces if and only if the handle hides exactly what the disk hides
  // and what the overlay replaces.
  lemma StaleFlushIsExact(lx: Lexer, s: Snapshot, disk: Snapshot, result: Snapshot)
    requires SnapshotWF(lx, s) && SegsWF(disk.segs)
    requires FitsOnto(s.overlay, disk.segs) && IsFlushedOnto(lx, s, disk.segs, result)
    ensures var hidden := disk.deleted + IdsWithPaths(disk.segs, OverlayPaths(s));
            Rows(lx, result) == Keep(AllRows(disk.segs), hidden) + OverlayRows(lx, s.overlay.docs)
            <==> forall r :: r in AllRows(disk.segs) ==>
                   (r.id in s.deleted <==> r.id in disk.deleted || r.path in OverlayPaths(s))
  {
    var all, hidden := AllRows(disk.segs), disk.deleted + IdsWithPaths(disk.segs, OverlayPaths(s));
    FlushedRowsOnto(lx, s, disk.segs, result);
    SameKeep(all, s.deleted, hidden);
    forall r | r in all ensures r.id in hidden <==> r.id in disk.deleted || r.path in OverlayPaths(s) {
      HiddenRow(disk.segs, OverlayPaths(s), r);
    }
    SameFront(Keep(all, s.deleted), Keep(all, hidden), OverlayRows(lx, s.overlay.docs));
  }

  lemma SameFront<T>(a: seq<T>, b: seq<T>, tail: seq<T>)
    ensures a + tail == b + tail <==> a == b
  {
    if a + tail == b + tail {
      assert a == (a + tail)[..|a|] && b == (b + tail)[..|b|];
    }
  }

  lemma {:induction false} SameKeep(rows: seq<Row>, a: set<nat>, b: set<nat>)
    ensures Keep(rows, a) == Keep(rows, b) <==> forall r :: r in rows ==> (r.id in a <==> r.id in b)
  {
    KeepMember(rows, a);
    KeepMember(rows, b);
    if forall r :: r in rows ==> (r.id in a <==> r.id in b) {
      KeepOnMembers(rows, a, b);
    } else {
      var r :| r in rows && (r.id in a) != (r.id in b);
      assert (r in Keep(rows, a)) != (r in Keep(rows, b));
    }
  }

  lemma {:induction false} KeepOnMembers(rows: seq<Row>, a: set<nat>, b: set<nat>)
    requires forall r :: r in rows ==> (r.id in a <==> r.id in b)
    ensures Keep(rows, a) == Keep(rows, b)
  {
    if |rows| != 0 {
      var init := rows[..|rows| - 1];
      assert rows == init + [rows[|rows| - 1]];
      assert rows[|rows| - 1] in rows && forall r :: r in init ==> r in rows;
      KeepOnMembers(init, a, b);
    }
  }

  // ---------------------------------------------------------------- a compaction

  // Rows of `rows` that a delete-set hides.
  function HiddenRows(rows: seq<Row>, hidden: set<nat>): seq<Row> { Keep(rows, (set r | r in rows :: r.id) - hidden) }

  // What the disk hides in the prefix that the compaction of `s` leaves alone,
  // and what it writes after that prefix.
  function ComingBack(disk: Snapshot, start: nat): seq<Row>
    requires start <= |disk.segs|
  {
    HiddenRows(AllRows(disk.segs[..start]), disk.deleted)
  }

  // What is live on disk after that prefix, and goes.
  function Going(disk: Snapshot, start: nat): seq<Row>
    requires start <= |disk.segs|
  {
    Keep(AllRows(disk.segs[start..]), disk.deleted)
  }

  // These rows have distinct paths and mean `m`.
  ghost predicate Means(rows: seq<Row>, m: map<Path, Entry>) { DistinctPaths(rows) && ViewOf(rows) == m }

  // A compaction of any snapshot over any base keeps the meaning of what is on
  // disk if and only if what it writes, together with what stops being hidden
  // in the prefix, means what was live on disk after the prefix.
  lemma StaleCompactionKeepsMeaning(lx: Lexer, s: Snapshot, disk: Snapshot, start: nat, batch: nat, result: Snapshot)
    requires SnapshotWF(lx, s) && SnapshotWF(lx, disk) && disk.overlay == EmptyOverlay
    requires IsCompactedOnto(lx, s, disk.segs, start, batch, result)
    ensures Means(Rows(lx, result), View(lx, disk))
            <==> Means(ComingBack(disk, start) + SuffixRows(lx, s, start), ViewOf(Going(disk, start)))
  {
    var prefix, suffix := disk.segs[..start], disk.segs[start..];
    var p, rest := AllRows(prefix), SuffixRows(lx, s, start);
    CompactedRows(lx, s, disk.segs, start, batch, result);
    RenumberedSame(rest, p, Limit(prefix));
    SameButIdsSameView(p + rest, Rows(lx, result));
    DiskRows(lx, disk, start);
    PrefixAscends(disk, start);
    SuffixDistinct(lx, s, start);
    SplitMeans(p, disk.deleted, rest, Going(disk, start));
  }

  // With nothing hidden in the prefix on disk, what was live after it decides.
  lemma StaleCompactionNothingHidden(lx: Lexer, s: Snapshot, disk: Snapshot, start: nat, batch: nat, result: Snapshot)
    requires SnapshotWF(lx, s) && SnapshotWF(lx, disk) && disk.overlay == EmptyOverlay
    requires IsCompactedOnto(lx, s, disk.segs, start, batch, result) && NoneHiddenBefore(disk, start)
    ensures Means(Rows(lx, result), View(lx, disk)) <==> ViewOf(SuffixRows(lx, s, start)) == ViewOf(Going(disk, start))
  {
    StaleCompactionKeepsMeaning(lx, s, disk, start, batch, result);
    NoneComeBack(disk, start);
    assert [] + SuffixRows(lx, s, start) == SuffixRows(lx, s, start);
    SuffixDistinct(lx, s, start);
  }

  lemma NoneComeBack(disk: Snapshot, start: nat)
    requires SegsWF(disk.segs) && start <= |disk.segs| && NoneHiddenBefore(disk, start)
    ensures ComingBack(disk, start) == []
  {
    var p := AllRows(disk.segs[..start]);
    PrefixVisible(disk, start);
    HiddenMember(p, disk.deleted);
    KeepNone(p, (set r | r in p :: r.id) - disk.deleted);
  }

  lemma {:induction false} KeepNone(rows: seq<Row>, hidden: set<nat>)
    requires forall r :: r in rows ==> r.id in hidden
    ensures Keep(rows, hidden) == []
  {
    if |rows| != 0 {
      var init := rows[..|rows| - 1];
      assert rows[|rows| - 1] in rows && forall r :: r in init ==> r in rows;
      KeepNone(init, hidden);
    }
  }

  lemma DiskRows(lx: Lexer, disk: Snapshot, start: nat)
    requires disk.overlay == EmptyOverlay && start <= |disk.segs|
    ensures Rows(lx, disk) == Keep(AllRows(disk.segs[..start]), disk.deleted) + Going(disk, start)
  {
    Rejoin(disk.segs, start);
    AllRowsAppend(disk.segs[..start], disk.segs[start..]);
    KeepAppend(AllRows(disk.segs[..start]), AllRows(disk.segs[start..]), disk.deleted);
    assert OverlayRows(lx, EmptyOverlay.docs) == [];
  }

  lemma PrefixAscends(disk: Snapshot, start: nat)
    requires SegsWF(disk.segs) && start <= |disk.segs|
    ensures IdsRise(AllRows(disk.segs[..start]))
  {
    SegsWFPrefix(disk.segs, start);
    AllRowsAscend(disk.segs[..start]);
  }

  ghost predicate IdsRise(rows: seq<Row>) { forall i, j :: 0 <= i < j < |rows| ==> rows[i].id < rows[j].id }

  lemma SuffixDistinct(lx: Lexer, s: Snapshot, start: nat)
    requires SnapshotWF(lx, s) && start <= |s.segs|
    ensures DistinctPaths(SuffixRows(lx, s, start))
  {
    var a, b, c := Keep(AllRows(s.segs[..start]), s.deleted), Keep(AllRows(s.segs[start..]), s.deleted),
                   OverlayRows(lx, s.overlay.docs);
    Rejoin(s.segs, start);
    AllRowsAppend(s.segs[..start], s.segs[start..]);
    KeepAppend(AllRows(s.segs[..start]), AllRows(s.segs[start..]), s.deleted);
    ConcatAssoc(a, b, c);
    DistinctAppend(Rows(lx, s), a, b + c);
  }

  // Rows with distinct paths mean `m` when they hold its entries, all of them.
  lemma MeansByMember(rows: seq<Row>, m: map<Path, Entry>)
    requires DistinctPaths(rows)
    ensures Means(rows, m) <==>
              m.Keys == PathsOfRows(rows) && forall r :: r in rows ==> r.path in m && m[r.path] == r.entry
  {
    ViewOfMember(rows);
    assert ViewOf(rows).Keys == PathsOfRows(rows);
    if m.Keys == PathsOfRows(rows) && forall r :: r in rows ==> r.path in m && m[r.path] == r.entry {
      forall p | p in m ensures p in ViewOf(rows) && ViewOf(rows)[p] == m[p] {
        var r :| r in rows && r.path == p;
      }
      assert ViewOf(rows) == m;
    }
  }

  // Both sides share the visible part of the prefix, which can be left out.
  lemma SplitMeans(p: seq<Row>, hidden: set<nat>, rest: seq<Row>, going: seq<Row>)
    requires IdsRise(p) && DistinctPaths(rest) && DistinctPaths(Keep(p, hidden) + going)
    ensures Means(p + rest, ViewOf(Keep(p, hidden) + going)) <==> Means(HiddenRows(p, hidden) + rest, ViewOf(going))
  {
    if Means(p + rest, ViewOf(Keep(p, hidden) + going)) {
      DropShown(p, hidden, rest, going);
    }
    if Means(HiddenRows(p, hidden) + rest, ViewOf(going)) {
      AddShown(p, hidden, rest, going);
    }
  }

  lemma HiddenMember(rows: seq<Row>, hidden: set<nat>)
    ensures forall r :: r in HiddenRows(rows, hidden) <==> r in rows && r.id in hidden
    ensures forall r :: r in Keep(rows, hidden) <==> r in rows && r.id !in hidden
  {
    KeepMember(rows, hidden);
    KeepMember(rows, (set r | r in rows :: r.id) - hidden);
  }

  lemma {:induction false} KeepDistinct(rows: seq<Row>, hidden: set<nat>)
    requires DistinctPaths(rows)
    ensures DistinctPaths(Keep(rows, hidden))
  {
    if |rows| != 0 {
      var init := rows[..|rows| - 1];
      KeepDistinct(init, hidden);
      KeepMember(init, hidden);
      DistinctAppend(rows, init, [rows[|rows| - 1]]);
      DistinctAppend(Keep(init, hidden) + [rows[|rows| - 1]], Keep(init, hidden), [rows[|rows| - 1]]);
    }
  }

  lemma RowWith(rows: seq<Row>, path: Path) returns (r: Row)
    requires path in PathsOfRows(rows)
    ensures r in rows && r.path == path
  {
    r :| r in rows && r.path == path;
  }

  lemma SamePathSameRow(rows: seq<Row>, r: Row, q: Row)
    requires DistinctPaths(rows) && r in rows && q in rows && r.path == q.path
    ensures r == q
  {
    var i :| 0 <= i < |rows| && rows[i] == r;
    var j :| 0 <= j < |rows| && rows[j] == q;
    assert i == j;
  }

  // What a concatenation with distinct paths means.
  lemma MeansAppend(a: seq<Row>, b: seq<Row>)
    requires DistinctPaths(a + b)
    ensures DistinctPaths(a) && DistinctPaths(b)
    ensures forall r :: r in a ==> r.path !in PathsOfRows(b)
    ensures forall r :: r in a + b ==> r.path in ViewOf(a + b) && ViewOf(a + b)[r.path] == r.entry
    ensures ViewOf(a + b).Keys == PathsOfRows(a + b)
  {
    DistinctAppend(a + b, a, b);
    ViewOfMember(a + b);
  }

  lemma DropShown(p: seq<Row>, hidden: set<nat>, rest: seq<Row>, going: seq<Row>)
    requires DistinctPaths(Keep(p, hidden) + going) && Means(p + rest, ViewOf(Keep(p, hidden) + going))
    ensures Means(HiddenRows(p, hidden) + rest, ViewOf(going))
  {
    var shown, back := Keep(p, hidden), HiddenRows(p, hidden);
    HiddenMember(p, hidden);
    MeansAppend(p, rest);
    MeansAppend(shown, going);
    ViewOfMember(going);
    KeepDistinct(p, (set r | r in p :: r.id) - hidden);
    DistinctAppend(back + rest, back, rest);
    forall r | r in back + rest ensures r.path in ViewOf(going) && ViewOf(going)[r.path] == r.entry {
      assert r in p + rest;
      var y := RowWith(shown + going, r.path);
      if y in shown {
        assert y in p;
        if r in back {
          SamePathSameRow(p, r, y);
        }
        assert false;
      }
    }
    forall path | path in ViewOf(going) ensures path in PathsOfRows(back + rest) {
      var y :| y in going && y.path == path;
      assert y in shown + going;
      var x := RowWith(p + rest, path);
      assert x !in shown;
      assert x in back + rest;
    }
    MeansByMember(back + rest, ViewOf(going));
  }

  lemma AddShown(p: seq<Row>, hidden: set<nat>, rest: seq<Row>, going: seq<Row>)
    requires IdsRise(p) && DistinctPaths(Keep(p, hidden) + going)
    requires Means(HiddenRows(p, hidden) + rest, ViewOf(going))
    ensures Means(p + rest, ViewOf(Keep(p, hidden) + going))
  {
    var shown, back := Keep(p, hidden), HiddenRows(p, hidden);
    HiddenMember(p, hidden);
    MeansAppend(back, rest);
    MeansAppend(shown, going);
    ViewOfMember(going);
    forall r | r in shown ensures r.path !in PathsOfRows(back + rest) {
    }
    WholeDistinct(p, hidden, rest);
    DistinctAppend(p + rest, p, rest);
    forall r | r in p + rest ensures r.path in ViewOf(shown + going) && ViewOf(shown + going)[r.path] == r.entry {
      if r !in shown {
        assert r in back + rest;
        var y := RowWith(going, r.path);
        assert y in shown + going;
      } else {
        assert r in shown + going;
      }
    }
    forall path | path in ViewOf(shown + going) ensures path in PathsOfRows(p + rest) {
      var y := RowWith(shown + going, path);
      if y in shown {
        assert y in p + rest;
      } else {
        var x := RowWith(back + rest, path);
        assert x in p + rest;
      }
    }
    MeansByMember(p + rest, ViewOf(shown + going));
  }

  lemma WholeDistinct(p: seq<Row>, hidden: set<nat>, rest: seq<Row>)
    requires IdsRise(p) && DistinctPaths(Keep(p, hidden)) && DistinctPaths(HiddenRows(p, hidden) + rest)
    requires forall r :: r in Keep(p, hidden) ==> r.path !in PathsOfRows(HiddenRows(p, hidden) + rest)
    ensures DistinctPaths(p) && forall r :: r in p ==> r.path !in PathsOfRows(rest)
  {
    var shown, back := Keep(p, hidden), HiddenRows(p, hidden);
    HiddenMember(p, hidden);
    MeansAppend(back, rest);
    assert forall r :: r in back || r in rest ==> r in back + rest;
    forall r, q | r in p && q in p && r.path == q.path ensures r == q {
      if r in shown && q in shown {
        SamePathSameRow(shown, r, q);
      } else if r in back && q in back {
        SamePathSameRow(back, r, q);
      }
    }
    DistinctByMember(p);
  }
}
