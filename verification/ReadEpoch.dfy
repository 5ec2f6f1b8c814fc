// The working-tree anchor and the read epoch it relies on: which flushed paths
// may be skipped until they change again (flush.rs:55-87, 252-268,
// worktree_anchor.rs:96-115, 165-221).
module ReadEpoch {
  import opened Common
  import opened Snapshots

  // Times are in nanoseconds of one clock that does not go back.
  const MAX_ENTRIES: nat := 50_000

  // ---------------------------------------------------------------- what is on disk, over time

  // A change to one path: new content, or none when it goes.
  datatype Write = Write(at: nat, content: Option<Content>, mtime: nat)

  // Writes in order; a file's mtime is at most the margin behind its write.
  ghost predicate History(h: seq<Write>) {
    && (forall i, j :: 0 <= i < j < |h| ==> h[i].at < h[j].at)
    && (forall i :: 0 <= i < |h| && h[i].content.Some? ==> h[i].mtime <= h[i].at <= h[i].mtime + RACY_MARGIN)
  }

  // The last write by time `t`.
  function LastBy(h: seq<Write>, t: nat): Option<Write> {
    if |h| == 0 then None else if h[|h| - 1].at <= t then Some(h[|h| - 1]) else LastBy(h[..|h| - 1], t)
  }

  function ContentAt(h: seq<Write>, t: nat): Option<Content> {
    if LastBy(h, t).Some? then LastBy(h, t).value.content else None
  }

  datatype Observed = Absent | Present(size: nat, mtime: nat)

  function StatAt(h: seq<Write>, t: nat): Observed {
    if ContentAt(h, t).Some? then Present(|ContentAt(h, t).value|, LastBy(h, t).value.mtime) else Absent
  }

  // worktree_anchor.rs:96-115
  predicate IsSettled(o: Observed, readEpoch: nat, now: nat) {
    o.Present? ==> o.mtime <= now && o.mtime + RACY_MARGIN < readEpoch
  }

  // If the last write seen at `late` was already done by `early`, nothing
  // happened in between.
  lemma {:induction false} NothingBetween(h: seq<Write>, early: nat, late: nat)
    requires History(h) && early <= late
    requires LastBy(h, late).Some? && LastBy(h, late).value.at <= early
    ensures LastBy(h, early) == LastBy(h, late)
  {
    if h[|h| - 1].at > late {
      NothingBetween(h[..|h| - 1], early, late);
    }
  }

  // ---------------------------------------------------------------- the bookkeeping

  // `readAt` says when each path not yet flushed was last read. `recent` are
  // those read since the bookkeeping was last drained.
  datatype Book = Book(clock: nat, epoch: Option<nat>, readAt: map<Path, nat>, recent: set<Path>)

  const EmptyBook := Book(0, None, map[], {})

  datatype Event =
    | Commit(stamp: nat, times: map<Path, nat>) // stamped, then read
    | FlushDone
    | FlushFailed // drained all the same

  ghost predicate Step(b: Book, e: Event, b2: Book) {
    match e
    case Commit(stamp, times) =>
      && b.clock <= stamp <= b2.clock && (forall p :: p in times ==> stamp <= times[p] <= b2.clock)
      && b2.epoch == (if b.epoch.None? then Some(stamp) else b.epoch)
      && b2.readAt == b.readAt + times && b2.recent == b.recent + times.Keys
    case FlushDone => b2.clock >= b.clock && b2.epoch == None && b2.readAt == map[] && b2.recent == {}
    case FlushFailed => b2.clock >= b.clock && b2.epoch == None && b2.readAt == b.readAt && b2.recent == {}
  }

  ghost predicate BookOk(b: Book) {
    && b.recent <= b.readAt.Keys
    && (forall p :: p in b.readAt ==> b.readAt[p] <= b.clock)
    && (b.epoch.None? ==> b.recent == {})
    && (b.epoch.Some? ==> b.epoch.value <= b.clock)
    && (b.epoch.Some? ==> forall p :: p in b.recent ==> b.epoch.value <= b.readAt[p])
    && (b.epoch.Some? ==> forall p :: p in b.readAt && p !in b.recent ==> b.readAt[p] <= b.epoch.value)
  }

  lemma StepOk(b: Book, e: Event, b2: Book)
    requires BookOk(b) && Step(b, e, b2)
    ensures BookOk(b2)
  {
  }

  ghost predicate IsRun(books: seq<Book>, events: seq<Event>) {
    && |books| == |events| + 1 && books[0] == EmptyBook
    && forall i :: 0 <= i < |events| ==> Step(books[i], events[i], books[i + 1])
  }

  // Along every run the recorded epoch precedes the reading of exactly the
  // paths read since the last drain.
  lemma {:induction false} EpochPrecedesRecentReads(books: seq<Book>, events: seq<Event>, i: nat)
    requires IsRun(books, events) && i < |books|
    ensures BookOk(books[i])
  {
    if i > 0 {
      EpochPrecedesRecentReads(books, events, i - 1);
      StepOk(books[i - 1], events[i - 1], books[i]);
    }
  }

  // Some commit since the last flush, failed or not, read the path.
  ghost predicate ReadSinceDrain(events: seq<Event>, i: nat, p: Path)
    requires i <= |events|
  {
    exists k :: 0 <= k < i && ReadAtCommit(events, k, p) && forall l :: k <= l < i ==> events[l].Commit?
  }

  predicate ReadAtCommit(events: seq<Event>, k: nat, p: Path)
    requires k < |events|
  {
    events[k].Commit? && p in events[k].times
  }

  lemma {:induction false} RecentExactly(books: seq<Book>, events: seq<Event>, i: nat, p: Path)
    requires IsRun(books, events) && i <= |events|
    ensures p in books[i].recent <==> ReadSinceDrain(events, i, p)
  {
    if i > 0 {
      RecentExactly(books, events, i - 1, p);
      assert Step(books[i - 1], events[i - 1], books[i]);
      if events[i - 1].Commit? {
        OneMoreCommit(events, i - 1, p);
      } else {
        assert !ReadSinceDrain(events, i, p);
      }
    }
  }

  lemma OneMoreCommit(events: seq<Event>, i: nat, p: Path)
    requires i < |events| && events[i].Commit?
    ensures ReadSinceDrain(events, i + 1, p) <==> p in events[i].times || ReadSinceDrain(events, i, p)
  {
    if p in events[i].times {
      assert ReadAtCommit(events, i, p);
    }
    if ReadSinceDrain(events, i, p) {
      var k :| 0 <= k < i && ReadAtCommit(events, k, p) && forall l :: k <= l < i ==> events[l].Commit?;
      assert forall l :: k <= l < i + 1 ==> events[l].Commit?;
    }
  }

  // If no flush has failed since everything was last flushed, these are all
  // the paths there are.
  lemma {:induction false} AllRecentWithoutFailure(books: seq<Book>, events: seq<Event>, from: nat, i: nat)
    requires IsRun(books, events) && from <= i < |books| && books[from].readAt == map[]
    requires forall k :: from <= k < i ==> events[k] != FlushFailed
    ensures books[i].recent == books[i].readAt.Keys
    decreases i
  {
    EpochPrecedesRecentReads(books, events, i);
    if i > from {
      AllRecentWithoutFailure(books, events, from, i - 1);
      assert Step(books[i - 1], events[i - 1], books[i]);
    } else {
      assert books[i].recent <= books[i].readAt.Keys;
    }
  }

  // ---------------------------------------------------------------- what an anchor entry is worth

  // A path read as a document since the last drain, found at flush time as
  // `StatAt(h, t)` and settled against the recorded epoch: what was flushed is
  // what is on disk exactly when there still is a file. `Absent` counts as
  // settled although the flushed document is then stale.
  lemma SettledDocumentIsCurrent(books: seq<Book>, events: seq<Event>, i: nat, p: Path, h: seq<Write>, now: nat, t: nat)
    requires IsRun(books, events) && i < |books|
    requires p in books[i].readAt && p in books[i].recent && books[i].epoch.Some?
    requires History(h) && ContentAt(h, books[i].readAt[p]).Some?
    requires books[i].clock <= now <= t && IsSettled(StatAt(h, t), books[i].epoch.value, now)
    ensures ContentAt(h, books[i].readAt[p]) == ContentAt(h, t) <==> StatAt(h, t).Present?
  {
    EpochPrecedesRecentReads(books, events, i);
    var early := books[i].readAt[p];
    if StatAt(h, t).Present? {
      LastIsMember(h, t);
      NothingBetween(h, early, t);
    }
  }

  // A path resolved without a document: the file that was passed over is still
  // the one on disk, or there is none, and either way none is indexed.
  lemma SettledNonDocumentIsCurrent(books: seq<Book>, events: seq<Event>, i: nat, p: Path, h: seq<Write>, now: nat,
                                    t: nat)
    requires IsRun(books, events) && i < |books|
    requires p in books[i].readAt && p in books[i].recent && books[i].epoch.Some?
    requires History(h) && books[i].clock <= now <= t && IsSettled(StatAt(h, t), books[i].epoch.value, now)
    ensures StatAt(h, t).Present? ==> ContentAt(h, t) == ContentAt(h, books[i].readAt[p])
  {
    EpochPrecedesRecentReads(books, events, i);
    if StatAt(h, t).Present? {
      LastIsMember(h, t);
      NothingBetween(h, books[i].readAt[p], t);
    }
  }

  // What an entry with a file is supposed to mean: whatever happened to the
  // path, if it now passes for settled it has the content that was read.
  ghost predicate Trustworthy(readAt: nat, epoch: nat, clock: nat) {
    forall h, now, t :: History(h) && clock <= now <= t && StatAt(h, t).Present? && IsSettled(StatAt(h, t), epoch, now)
                        ==> ContentAt(h, t) == ContentAt(h, readAt)
  }

  // Along every run an entry can be trusted exactly when the recorded epoch is
  // at most one tick after the path was read (or lies within the margin of the
  // start of time). A path read since the last drain always can.
  lemma TrustworthyExactly(books: seq<Book>, events: seq<Event>, i: nat, p: Path)
    requires IsRun(books, events) && i < |books| && p in books[i].readAt && books[i].epoch.Some?
    ensures var readAt, epoch := books[i].readAt[p], books[i].epoch.value;
            Trustworthy(readAt, epoch, books[i].clock) <==> epoch <= readAt + 1 || epoch <= RACY_MARGIN
    ensures p in books[i].recent ==> Trustworthy(books[i].readAt[p], books[i].epoch.value, books[i].clock)
  {
    var readAt, epoch, clock := books[i].readAt[p], books[i].epoch.value, books[i].clock;
    EpochPrecedesRecentReads(books, events, i);
    if epoch <= readAt + 1 || epoch <= RACY_MARGIN {
      forall h, now, t | History(h) && clock <= now <= t && StatAt(h, t).Present? && IsSettled(StatAt(h, t), epoch, now)
        ensures ContentAt(h, t) == ContentAt(h, readAt)
      {
        LastIsMember(h, t);
        NothingBetween(h, readAt, t);
      }
    } else {
      var h := ChangedRightAfter(readAt, epoch);
      assert History(h) && StatAt(h, clock).Present? && IsSettled(StatAt(h, clock), epoch, clock);
      assert ContentAt(h, clock) != ContentAt(h, readAt);
    }
  }

  // A document written again one tick after it was read, with a clock as far
  // behind as the margin allows.
  lemma ChangedRightAfter(readAt: nat, epoch: nat) returns (h: seq<Write>)
    requires readAt + 1 < epoch && RACY_MARGIN < epoch
    ensures History(h) && ContentAt(h, readAt) == Some([2])
    ensures forall t :: epoch <= t ==>
              ContentAt(h, t) == Some([1]) && StatAt(h, t).Present? && IsSettled(StatAt(h, t), epoch, t)
  {
    h := [Write(0, Some([2]), 0), Write(readAt + 1, Some([1]), SatSub(readAt + 1, RACY_MARGIN))];
    assert h[..1] == [h[0]];
    assert LastBy(h[..1], readAt) == Some(h[0]);
  }

  lemma {:induction false} LastIsMember(h: seq<Write>, t: nat)
    requires History(h) && LastBy(h, t).Some?
    ensures var w := LastBy(h, t).value;
            w in h && w.at <= t && (w.content.Some? ==> w.mtime <= w.at <= w.mtime + RACY_MARGIN)
  {
    if h[|h| - 1].at > t {
      LastIsMember(h[..|h| - 1], t);
    }
  }

  // ---------------------------------------------------------------- where it fails

  const P := Path("p")
  const Q := Path("q")

  // Read at second 11, changed at 15, anchored at 21: after a failed flush the
  // next commit records its own, later epoch, and the old read is taken for
  // settled.
  lemma FailedFlushLosesEarliestEpoch() returns (books: seq<Book>, events: seq<Event>, h: seq<Write>)
    ensures IsRun(books, events) && |books| == 4 && History(h)
    ensures P in books[3].readAt && books[3].epoch.Some? && P !in books[3].recent
    ensures StatAt(h, 21 * NANOS).Present? && IsSettled(StatAt(h, 21 * NANOS), books[3].epoch.value, 21 * NANOS)
    ensures ContentAt(h, books[3].readAt[P]) != ContentAt(h, 21 * NANOS)
  {
    events := [Commit(10 * NANOS, map[P := 11 * NANOS]), FlushFailed, Commit(20 * NANOS, map[Q := 20 * NANOS])];
    var b1 := Book(11 * NANOS, Some(10 * NANOS), map[P := 11 * NANOS], {P});
    var b2 := Book(12 * NANOS, None, map[P := 11 * NANOS], {});
    var b3 := Book(20 * NANOS, Some(20 * NANOS), map[P := 11 * NANOS, Q := 20 * NANOS], {Q});
    books := [EmptyBook, b1, b2, b3];
    h := [Write(1 * NANOS, Some([1]), 1 * NANOS), Write(15 * NANOS, Some([2]), 15 * NANOS)];
    assert Step(EmptyBook, events[0], b1) && Step(b1, events[1], b2) && Step(b2, events[2], b3);
    assert h[..1][0] == h[0];
    assert LastBy(h, 11 * NANOS) == LastBy(h[..1], 11 * NANOS) == Some(h[0]);
  }

  // Read at second 11, deleted at 12: `Absent` is taken for settled.
  lemma DeletedAfterReadingIsAnchored() returns (books: seq<Book>, events: seq<Event>, h: seq<Write>)
    ensures IsRun(books, events) && |books| == 2 && History(h)
    ensures P in books[1].recent && books[1].epoch.Some? && ContentAt(h, books[1].readAt[P]).Some?
    ensures IsSettled(StatAt(h, 13 * NANOS), books[1].epoch.value, 13 * NANOS)
    ensures ContentAt(h, books[1].readAt[P]) != ContentAt(h, 13 * NANOS)
  {
    events := [Commit(10 * NANOS, map[P := 11 * NANOS])];
    var b1 := Book(11 * NANOS, Some(10 * NANOS), map[P := 11 * NANOS], {P});
    books := [EmptyBook, b1];
    h := [Write(1 * NANOS, Some([1]), 1 * NANOS), Write(12 * NANOS, None, 12 * NANOS)];
    assert Step(EmptyBook, events[0], b1);
    assert h[..1][0] == h[0];
    assert LastBy(h, 11 * NANOS) == LastBy(h[..1], 11 * NANOS) == Some(h[0]);
  }

  // ---------------------------------------------------------------- building the anchor

  // Observe one path and record it, or drop what was recorded for it
  // (worktree_anchor.rs:205-221).
  function RecordPath(entries: map<Path, Observed>, p: Path, stat: Option<Observed>, readEpoch: nat, now: nat)
    : map<Path, Observed>
  {
    if stat.Some? && IsSettled(stat.value, readEpoch, now) then entries[p := stat.value] else entries - {p}
  }

  // What is recorded for an observation.
  function Settled(stat: Option<Observed>, readEpoch: nat, now: nat): Option<Observed> {
    if stat.Some? && IsSettled(stat.value, readEpoch, now) then stat else None
  }

  // Entries of touched paths are what is settled now; the others carry over.
  ghost predicate IsNext(prev: map<Path, Observed>, touched: set<Path>, stat: Path -> Option<Observed>, readEpoch: nat,
                         now: nat, entries: map<Path, Observed>)
  {
    forall p :: Find(entries, p) == if p in touched then Settled(stat(p), readEpoch, now) else Find(prev, p)
  }

  // worktree_anchor.rs:175-197
  method BuildNext(prev: map<Path, Observed>, flushed: set<Path>, nonDocs: set<Path>, stat: Path -> Option<Observed>,
                   readEpoch: nat, now: nat)
    returns (r: Option<map<Path, Observed>>)
    ensures r.Some? ==> IsNext(prev, flushed + nonDocs, stat, readEpoch, now, r.value) && |r.value| <= MAX_ENTRIES
    ensures r.None? ==> exists entries: map<Path, Observed> ::
              IsNext(prev, flushed + nonDocs, stat, readEpoch, now, entries) && |entries| > MAX_ENTRIES
  {
    var next := RecordAll(prev, nonDocs - flushed, stat, readEpoch, now);
    ghost var middle := next;
    next := RecordAll(next, flushed, stat, readEpoch, now);
    assert forall p ::
             Find(middle, p) == if p in nonDocs - flushed then Settled(stat(p), readEpoch, now) else Find(prev, p);
    assert IsNext(prev, flushed + nonDocs, stat, readEpoch, now, next);
    r := if |next| > MAX_ENTRIES then None else Some(next);
  }

  method RecordAll(prev: map<Path, Observed>, paths: set<Path>, stat: Path -> Option<Observed>, readEpoch: nat,
                   now: nat)
    returns (entries: map<Path, Observed>)
    ensures IsNext(prev, paths, stat, readEpoch, now, entries)
  {
    entries := prev;
    var todo := paths;
    while todo != {}
      invariant todo <= paths && IsNext(prev, paths - todo, stat, readEpoch, now, entries)
      decreases todo
    {
      var p :| p in todo;
      entries := RecordPath(entries, p, stat(p), readEpoch, now);
      todo := todo - {p};
    }
    assert paths - todo == paths;
  }
}
