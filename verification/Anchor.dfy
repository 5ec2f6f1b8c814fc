// The working-tree anchor along whole runs: which entries still describe the
// file several flushes after they were recorded (worktree_anchor.rs:159-221,
// flush.rs:89-167, compact.rs:283-290).
module Anchor {
  import opened Common
  import opened Snapshots
  import opened ReadEpoch

  // What happened to every path, and when: the future included.
  type Tree = Path -> seq<Write>

  // `entries` is the anchor that the manifest names. `durable` says when what
  // the index on disk has for a path, a document or none, was read.
  datatype Desk = Desk(book: Book, entries: map<Path, Observed>, durable: map<Path, nat>)

  const EmptyDesk := Desk(EmptyBook, map[], map[])

  datatype Act =
    | Committing(stamp: nat, times: map<Path, nat>)
    // `seen` says when a path was observed; one that could not be is missing.
    // `written` is false when there is no epoch, when there are too many
    // entries, and when writing the sidecar fails.
    | Flushing(touched: set<Path>, now: nat, seen: map<Path, nat>, written: bool)
    | Losing // a flush that did not publish
    | Compacting // keeps the anchor of the manifest it replaces
    | Rebuilding(times: map<Path, nat>) // writes no anchor

  // Every path with a document in the overlay is touched by a flush, and so is
  // every path read since the last drain.
  ghost predicate Step(tree: Tree, d: Desk, a: Act, d2: Desk) {
    match a
    case Committing(stamp, times) =>
      ReadEpoch.Step(d.book, Commit(stamp, times), d2.book) && d2.entries == d.entries && d2.durable == d.durable
    case Flushing(touched, now, seen, written) =>
      && ReadEpoch.Step(d.book, FlushDone, d2.book) && d2.durable == d.durable + d.book.readAt
      && d.book.recent <= touched <= d.book.readAt.Keys && d.book.clock <= now <= d2.book.clock
      && (forall p :: p in seen ==> now <= seen[p] <= d2.book.clock)
      && (written ==> d.book.epoch.Some? && Recorded(tree, d, touched, now, seen, d2.entries))
      && (!written ==> d2.entries == map[])
    case Losing =>
      ReadEpoch.Step(d.book, FlushFailed, d2.book) && d2.entries == d.entries && d2.durable == d.durable
    case Compacting => d2 == d
    case Rebuilding(times) =>
      && d2.book.clock >= d.book.clock && d2.book == EmptyBook.(clock := d2.book.clock)
      && (forall p :: p in times ==> d.book.clock <= times[p] <= d2.book.clock)
      && d2.entries == map[] && d2.durable == times
  }

  ghost predicate Recorded(tree: Tree, d: Desk, touched: set<Path>, now: nat, seen: map<Path, nat>,
                           entries: map<Path, Observed>)
    requires d.book.epoch.Some?
  {
    IsNext(d.entries, touched, p => if p in seen then Some(StatAt(tree(p), seen[p])) else None,
           d.book.epoch.value, now, entries)
  }

  ghost predicate IsRun(tree: Tree, desks: seq<Desk>, acts: seq<Act>) {
    && |desks| == |acts| + 1 && desks[0] == EmptyDesk
    && forall i :: 0 <= i < |acts| ==> StepAt(tree, desks, acts, i)
  }

  ghost predicate StepAt(tree: Tree, desks: seq<Desk>, acts: seq<Act>, i: nat)
    requires i < |acts| < |desks|
  {
    Step(tree, desks[i], acts[i], desks[i + 1])
  }

  // Nothing durable was read later than what has been read since.
  ghost predicate DeskOk(d: Desk) {
    && BookOk(d.book)
    && (forall p :: p in d.durable ==> d.durable[p] <= d.book.clock)
    && (forall p :: p in d.durable && p in d.book.readAt ==> d.durable[p] <= d.book.readAt[p])
    && (forall p :: p in d.entries ==> p in d.durable)
  }

  lemma RunOk(tree: Tree, desks: seq<Desk>, acts: seq<Act>, i: nat)
    requires IsRun(tree, desks, acts) && i < |desks|
    ensures DeskOk(desks[i])
  {
    if i > 0 {
      RunOk(tree, desks, acts, i - 1);
      assert StepAt(tree, desks, acts, i - 1);
      StepKeepsOk(tree, desks[i - 1], acts[i - 1], desks[i]);
    }
  }

  lemma StepKeepsOk(tree: Tree, d: Desk, a: Act, d2: Desk)
    requires DeskOk(d) && Step(tree, d, a, d2)
    ensures DeskOk(d2)
  {
    if a.Flushing? {
      forall p | p in d2.entries ensures p in d2.durable {
        assert Find(d2.entries, p).Some?;
      }
    }
  }

  // ---------------------------------------------------------------- what one entry is worth

  // Whatever happened to the file, as long as it looks as recorded it has the
  // content that was read at `readAt`.
  ghost predicate Describes(o: Observed, readAt: nat) {
    forall h, t :: History(h) && readAt <= t && StatAt(h, t) == o ==> ContentAt(h, t) == ContentAt(h, readAt)
  }

  predicate Old(o: Observed, readAt: nat) { o.Present? ==> o.mtime + RACY_MARGIN <= readAt }

  // Exactly when its modification time is the margin older than the reading.
  lemma DescribesExactly(o: Observed, readAt: nat)
    requires o.Present?
    ensures Describes(o, readAt) <==> Old(o, readAt)
  {
    if Old(o, readAt) {
      forall h, t | History(h) && readAt <= t && StatAt(h, t) == o ensures ContentAt(h, t) == ContentAt(h, readAt) {
        LooksOld(h, o, readAt, t);
      }
    } else {
      var h, t := Replaced(o, readAt);
    }
  }

  lemma LooksOld(h: seq<Write>, o: Observed, readAt: nat, t: nat)
    requires History(h) && readAt <= t && o.Present? && Old(o, readAt) && StatAt(h, t) == o
    ensures ContentAt(h, t) == ContentAt(h, readAt)
  {
    LastIsMember(h, t);
    NothingBetween(h, readAt, t);
  }

  // A document replaced after it was read by one of the recorded size, stamped
  // with the recorded time.
  lemma Replaced(o: Observed, readAt: nat) returns (h: seq<Write>, t: nat)
    requires o.Present? && !Old(o, readAt)
    ensures History(h) && readAt <= t && StatAt(h, t) == o
    ensures ContentAt(h, readAt).Some? && ContentAt(h, t) != ContentAt(h, readAt)
  {
    var first: Content := if o.size == 0 then [0] else [];
    var second: Content := seq(o.size, i => 0);
    t := Max(readAt + 1, o.mtime);
    h := [Write(0, Some(first), 0), Write(t, Some(second), o.mtime)];
    assert h[..1] == [h[0]] && LastBy(h[..1], readAt) == Some(h[0]);
  }

  // ---------------------------------------------------------------- entries along runs

  // What a flush records for a path read since the last drain is old enough.
  lemma RecentIsOld(tree: Tree, d: Desk, a: Act, d2: Desk, p: Path)
    requires DeskOk(d) && Step(tree, d, a, d2) && a.Flushing? && a.written
    requires p in d.book.recent && p in d2.entries
    ensures Old(d2.entries[p], d2.durable[p])
  {
    assert Find(d2.entries, p) == Some(d2.entries[p]);
  }

  // And one that is carried over stays so: what is durable is only read again
  // later.
  lemma CarriedStaysOld(tree: Tree, d: Desk, a: Act, d2: Desk, p: Path)
    requires DeskOk(d) && Step(tree, d, a, d2) && p in d.entries && p in d2.entries && Old(d.entries[p], d.durable[p])
    requires a.Flushing? ==> p !in a.touched
    ensures d2.entries[p] == d.entries[p] && p in d2.durable && Old(d2.entries[p], d2.durable[p])
  {
    if a.Flushing? {
      assert Find(d2.entries, p) == Find(d.entries, p);
    }
  }

  // No later flush recorded or dropped the path again.
  ghost predicate LeftAlone(desks: seq<Desk>, acts: seq<Act>, p: Path, i: nat, j: nat)
    requires |desks| == |acts| + 1 && j <= |acts|
  {
    forall k :: i <= k < j ==> p in desks[k + 1].entries && (acts[k].Flushing? ==> p !in acts[k].touched)
  }

  // Several flushes later: an entry recorded for a path read since the last
  // drain, and carried over since through any number of commits, flushes,
  // failed flushes and compactions, still describes the file: whenever the
  // file looks as recorded, it has the content that the index on disk has.
  lemma CarriedEntryDescribes(tree: Tree, desks: seq<Desk>, acts: seq<Act>, p: Path, i: nat, j: nat, t: nat)
    requires IsRun(tree, desks, acts) && i < j <= |acts| && History(tree(p))
    requires acts[i].Flushing? && acts[i].written && p in desks[i].book.recent && p in desks[i + 1].entries
    requires LeftAlone(desks, acts, p, i + 1, j)
    ensures p in desks[j].entries && p in desks[j].durable && desks[j].entries[p] == desks[i + 1].entries[p]
    ensures desks[j].entries[p].Present? && desks[j].durable[p] <= t && StatAt(tree(p), t) == desks[j].entries[p] ==>
              ContentAt(tree(p), t) == ContentAt(tree(p), desks[j].durable[p])
  {
    CarriedEntryIsOld(tree, desks, acts, p, i, j);
    if desks[j].entries[p].Present? && desks[j].durable[p] <= t && StatAt(tree(p), t) == desks[j].entries[p] {
      LooksOld(tree(p), desks[j].entries[p], desks[j].durable[p], t);
    }
  }

  lemma {:induction false} CarriedEntryIsOld(tree: Tree, desks: seq<Desk>, acts: seq<Act>, p: Path, i: nat, j: nat)
    requires IsRun(tree, desks, acts) && i < j <= |acts|
    requires acts[i].Flushing? && acts[i].written && p in desks[i].book.recent && p in desks[i + 1].entries
    requires LeftAlone(desks, acts, p, i + 1, j)
    ensures p in desks[j].entries && p in desks[j].durable && desks[j].entries[p] == desks[i + 1].entries[p]
    ensures Old(desks[j].entries[p], desks[j].durable[p])
    decreases j
  {
    StepOf(tree, desks, acts, j - 1);
    if j == i + 1 {
      RecentIsOld(tree, desks[i], acts[i], desks[j], p);
    } else {
      CarriedEntryIsOld(tree, desks, acts, p, i, j - 1);
      LeftAloneAt(desks, acts, p, i + 1, j, j - 1);
      CarriedStaysOld(tree, desks[j - 1], acts[j - 1], desks[j], p);
    }
  }

  lemma StepOf(tree: Tree, desks: seq<Desk>, acts: seq<Act>, k: nat)
    requires IsRun(tree, desks, acts) && k < |acts|
    ensures DeskOk(desks[k]) && Step(tree, desks[k], acts[k], desks[k + 1]) && DeskOk(desks[k + 1])
  {
    RunOk(tree, desks, acts, k);
    RunOk(tree, desks, acts, k + 1);
    assert StepAt(tree, desks, acts, k);
  }

  lemma LeftAloneAt(desks: seq<Desk>, acts: seq<Act>, p: Path, i: nat, j: nat, k: nat)
    requires |desks| == |acts| + 1 && i <= k < j <= |acts| && LeftAlone(desks, acts, p, i, j)
    ensures p in desks[k + 1].entries && (acts[k].Flushing? ==> p !in acts[k].touched)
  {
  }

  // Nothing durable was read since what is recorded, and every path is recent.
  ghost predicate AllOld(d: Desk) {
    && d.book.recent == d.book.readAt.Keys
    && forall p :: p in d.entries ==> p in d.durable && Old(d.entries[p], d.durable[p])
  }

  lemma AllStayOld(tree: Tree, d: Desk, a: Act, d2: Desk)
    requires DeskOk(d) && Step(tree, d, a, d2) && a != Losing && AllOld(d)
    ensures AllOld(d2)
  {
    forall p | p in d2.entries ensures p in d2.durable && Old(d2.entries[p], d2.durable[p]) {
      if a.Flushing? && p in a.touched {
        RecentIsOld(tree, d, a, d2, p);
      } else {
        EntryWasThere(tree, d, a, d2, p);
        CarriedStaysOld(tree, d, a, d2, p);
      }
    }
  }

  // Along a run in which no flush failed, that is every entry there is.
  lemma {:induction false} AllEntriesOld(tree: Tree, desks: seq<Desk>, acts: seq<Act>, i: nat)
    requires IsRun(tree, desks, acts) && i < |desks| && forall k :: 0 <= k < i ==> acts[k] != Losing
    ensures AllOld(desks[i])
  {
    if i > 0 {
      AllEntriesOld(tree, desks, acts, i - 1);
      StepOf(tree, desks, acts, i - 1);
      AllStayOld(tree, desks[i - 1], acts[i - 1], desks[i]);
    }
  }

  lemma EntryWasThere(tree: Tree, d: Desk, a: Act, d2: Desk, p: Path)
    requires Step(tree, d, a, d2) && p in d2.entries && (a.Flushing? ==> p !in a.touched)
    ensures p in d.entries
  {
    if a.Flushing? {
      assert Find(d2.entries, p) == Find(d.entries, p);
    }
  }

  // So without failed flushes every entry with a file describes it, whatever
  // may happen to the file.
  lemma EntriesDescribe(tree: Tree, desks: seq<Desk>, acts: seq<Act>, i: nat, p: Path)
    requires IsRun(tree, desks, acts) && i < |desks| && forall k :: 0 <= k < i ==> acts[k] != Losing
    requires p in desks[i].entries && desks[i].entries[p].Present?
    ensures p in desks[i].durable && Describes(desks[i].entries[p], desks[i].durable[p])
  {
    AllEntriesOld(tree, desks, acts, i);
    DescribesExactly(desks[i].entries[p], desks[i].durable[p]);
  }

  // ---------------------------------------------------------------- where it fails

  const WRITES := [Write(1 * NANOS, Some([1]), 1 * NANOS), Write(15 * NANOS, Some([2]), 15 * NANOS)]
  const TREE: Tree := (p: Path) => if p == P then WRITES else []

  const BOOK1 := Book(11 * NANOS, Some(10 * NANOS), map[P := 11 * NANOS], {P})
  const BOOK2 := Book(12 * NANOS, None, map[P := 11 * NANOS], {})
  const BOOK3 := Book(20 * NANOS, Some(20 * NANOS), map[P := 11 * NANOS, Q := 20 * NANOS], {Q})
  const BOOK4 := Book(21 * NANOS, None, map[], {})

  const SEEN: map<Path, nat> := map[P := 21 * NANOS, Q := 21 * NANOS]
  const ENTRIES: map<Path, Observed> := map[P := Present(1, 15 * NANOS), Q := Absent]

  const DESK1 := Desk(BOOK1, map[], map[])
  const DESK2 := Desk(BOOK2, map[], map[])
  const DESK3 := Desk(BOOK3, map[], map[])
  const DESK4 := Desk(BOOK4, ENTRIES, map[P := 11 * NANOS, Q := 20 * NANOS])

  const READ_P := Committing(10 * NANOS, map[P := 11 * NANOS])
  const READ_Q := Committing(20 * NANOS, map[Q := 20 * NANOS])
  const FLUSH := Flushing({P, Q}, 21 * NANOS, SEEN, true)

  lemma EarlyContent()
    ensures ContentAt(WRITES, 11 * NANOS) == Some([1])
    ensures forall t ::
              15 * NANOS <= t ==> ContentAt(WRITES, t) == Some([2]) && StatAt(WRITES, t) == Present(1, 15 * NANOS)
  {
    assert WRITES[..1] == [WRITES[0]];
    assert LastBy(WRITES[..1], 11 * NANOS) == Some(WRITES[0]);
  }

  lemma FirstActs()
    ensures Step(TREE, EmptyDesk, READ_P, DESK1) && Step(TREE, DESK1, Losing, DESK2) && Step(TREE, DESK2, READ_Q, DESK3)
  {
  }

  lemma EntriesRecorded()
    ensures Recorded(TREE, DESK3, {P, Q}, 21 * NANOS, SEEN, ENTRIES)
  {
    EarlyContent();
  }

  lemma FlushAct()
    ensures Step(TREE, DESK3, FLUSH, DESK4)
  {
    EntriesRecorded();
  }

  lemma FiveActs(tree: Tree, desks: seq<Desk>, acts: seq<Act>)
    requires |acts| == 5 && |desks| == 6 && desks[0] == EmptyDesk
    requires Step(tree, desks[0], acts[0], desks[1]) && Step(tree, desks[1], acts[1], desks[2])
    requires Step(tree, desks[2], acts[2], desks[3]) && Step(tree, desks[3], acts[3], desks[4])
    requires Step(tree, desks[4], acts[4], desks[5])
    ensures IsRun(tree, desks, acts)
  {
  }

  // Read at second 11, changed at 15; the flush that would have anchored it is
  // lost, the next one records what it finds against a later epoch, and the
  // compaction after that carries the entry on: the file looks as recorded and
  // is not what was indexed.
  lemma CarriedEntryMisleads()
    ensures IsRun(TREE, [EmptyDesk, DESK1, DESK2, DESK3, DESK4, DESK4], [READ_P, Losing, READ_Q, FLUSH, Compacting])
    ensures P in DESK4.entries && P in DESK4.durable && !Old(DESK4.entries[P], DESK4.durable[P])
    ensures StatAt(TREE(P), 22 * NANOS) == DESK4.entries[P]
    ensures ContentAt(TREE(P), 22 * NANOS) != ContentAt(TREE(P), DESK4.durable[P])
  {
    FirstActs();
    FlushAct();
    FiveActs(TREE, [EmptyDesk, DESK1, DESK2, DESK3, DESK4, DESK4], [READ_P, Losing, READ_Q, FLUSH, Compacting]);
    EarlyContent();
  }
}
