// What the catalogue's verdict "unchanged" is worth. A fingerprint does not
// record when its file was hashed, and the verdict asks that the modification
// time be old when the present reading began (catalogue.rs:125-140,
// fingerprint.rs:144-154), not that it was old when the file was hashed.
module Racy {
  import opened Common
  import opened Snapshots
  import opened Catalogue
  import E = ReadEpoch
  import A = Anchor

  function TimeOf(fp: Fingerprint): nat
    requires fp.mtimeSecs >= 0
  {
    fp.mtimeSecs * NANOS + fp.mtimeNanos
  }

  // At time `t` the file has the size and time of the fingerprint.
  ghost predicate LooksAs(h: seq<E.Write>, t: nat, fp: Fingerprint) {
    fp.mtimeSecs >= 0 && E.StatAt(h, t) == E.Present(fp.size, TimeOf(fp))
  }

  // Whatever happened to the file, looking as it did when it was hashed it has
  // the content that was hashed.
  ghost predicate LooksTell(fp: Fingerprint, hashedAt: nat) {
    forall h, t :: E.History(h) && hashedAt <= t && LooksAs(h, hashedAt, fp) && LooksAs(h, t, fp) ==>
      E.ContentAt(h, t) == E.ContentAt(h, hashedAt)
  }

  // Exactly when its time was the racy margin old at the hashing, or when it
  // was empty.
  lemma LooksTellExactly(fp: Fingerprint, hashedAt: nat)
    requires fp.mtimeSecs >= 0 && TimeOf(fp) <= hashedAt
    ensures LooksTell(fp, hashedAt) <==> fp.size == 0 || TimeOf(fp) + RACY_MARGIN <= hashedAt
  {
    if fp.size == 0 || TimeOf(fp) + RACY_MARGIN <= hashedAt {
      forall h, t | E.History(h) && hashedAt <= t && LooksAs(h, hashedAt, fp) && LooksAs(h, t, fp)
        ensures E.ContentAt(h, t) == E.ContentAt(h, hashedAt)
      {
        if fp.size != 0 {
          A.LooksOld(h, E.Present(fp.size, TimeOf(fp)), hashedAt, t);
        }
      }
    } else {
      var h := Rewritten(fp, hashedAt);
      assert LooksAs(h, hashedAt + 1, fp);
    }
  }

  // Written twice within the margin, before and after the hashing, with one
  // size and one modification time.
  lemma Rewritten(fp: Fingerprint, hashedAt: nat) returns (h: seq<E.Write>)
    requires fp.mtimeSecs >= 0 && TimeOf(fp) <= hashedAt < TimeOf(fp) + RACY_MARGIN && fp.size > 0
    ensures E.History(h) && LooksAs(h, hashedAt, fp)
    ensures forall t :: t > hashedAt ==> LooksAs(h, t, fp) && E.ContentAt(h, t) != E.ContentAt(h, hashedAt)
  {
    var first: Content, second: Content := seq(fp.size, i => 0), seq(fp.size, i => 1);
    var a, b := E.Write(TimeOf(fp), Some(first), TimeOf(fp)), E.Write(hashedAt + 1, Some(second), TimeOf(fp));
    h := [a, b];
    assert h[..1] == [a];
    assert E.LastBy(h[..1], hashedAt) == Some(a) && E.LastBy(h, hashedAt) == E.LastBy(h[..1], hashedAt);
    assert first[0] != second[0];
  }

  // The disk answered what the file looks like at time `t`.
  ghost predicate Shows(ob: Observation, h: seq<E.Write>, t: nat) {
    match ob.stat
    case Some(Present(size, secs, nanos)) => secs >= 0 && E.StatAt(h, t) == E.Present(size, secs * NANOS + nanos)
    case _ => false
  }

  predicate SaysUnchanged(m: map<Path, Fingerprint>, ob: Observation, readEpoch: nat, now: nat) {
    var r := RecordFor(m, ob, readEpoch, now);
    r.Some? && r.value.kind == Unchanged
  }

  // So a file reported unchanged has the content that was hashed, if its time
  // was old when it was hashed.
  lemma UnchangedIsSure(m: map<Path, Fingerprint>, ob: Observation, readEpoch: nat, now: nat, h: seq<E.Write>,
                        hashedAt: nat, t: nat)
    requires E.History(h) && ob.path in m && hashedAt <= t && LooksAs(h, hashedAt, m[ob.path]) && Shows(ob, h, t)
    requires SaysUnchanged(m, ob, readEpoch, now)
    requires m[ob.path].size == 0 || TimeOf(m[ob.path]) + RACY_MARGIN <= hashedAt
    ensures E.ContentAt(h, t) == E.ContentAt(h, hashedAt)
  {
    RecordAccounts(m, ob, readEpoch, now);
    if m[ob.path].size != 0 {
      A.LooksOld(h, E.Present(m[ob.path].size, TimeOf(m[ob.path])), hashedAt, t);
    }
  }

  // And if it was not, there is a history on which a later batch says so of a
  // file that has changed.
  lemma UnchangedMisses(m: map<Path, Fingerprint>, p: Path, hashedAt: nat)
    returns (h: seq<E.Write>, ob: Observation, readEpoch: nat)
    requires p in m && m[p].mtimeSecs >= 0 && m[p].size > 0
    requires TimeOf(m[p]) <= hashedAt < TimeOf(m[p]) + RACY_MARGIN
    ensures ob.path == p && E.History(h) && LooksAs(h, hashedAt, m[p]) && readEpoch > hashedAt
    ensures Shows(ob, h, readEpoch) && SaysUnchanged(m, ob, readEpoch, readEpoch)
    ensures E.ContentAt(h, readEpoch) != E.ContentAt(h, hashedAt)
  {
    h := Rewritten(m[p], hashedAt);
    readEpoch := TimeOf(m[p]) + RACY_MARGIN + 1;
    ob := Observation(p, Some(Present(m[p].size, m[p].mtimeSecs, m[p].mtimeNanos)), None);
  }

  // ---------------------------------------------------------------- two batches

  const P := Path("p")
  const FILE := [E.Write(1 * NANOS, Some([1]), 1 * NANOS), E.Write(2 * NANOS, Some([2]), 1 * NANOS)]

  // Hashed in the second it was written in, rewritten in the next with the
  // same size and time: the second batch reports it unchanged, and the
  // generation stays.
  lemma SecondBatchMisses(digest: Content -> nat)
    ensures E.History(FILE) && E.ContentAt(FILE, 1 * NANOS) == Some([1]) && E.ContentAt(FILE, 10 * NANOS) == Some([2])
    ensures var fp := Fingerprint(digest([1]), 1, 1, 0);
            var first := Observation(P, Some(Present(1, 1, 0)), Some(fp));
            var second := Observation(P, Some(Present(1, 1, 0)), Some(Fingerprint(digest([2]), 1, 1, 0)));
            && Shows(first, FILE, 1 * NANOS) && Shows(second, FILE, 10 * NANOS)
            && RecordsOf(map[], [first], NANOS, NANOS) == ([Record(P, Added, Some(fp), None)], map[P := fp])
            && RecordsOf(map[P := fp], [second], 10 * NANOS, 10 * NANOS)
               == ([Record(P, Unchanged, Some(fp), Some(fp))], map[P := fp])
  {
    assert FILE[..1] == [FILE[0]];
    assert E.LastBy(FILE, 1 * NANOS) == E.LastBy(FILE[..1], 1 * NANOS) == Some(FILE[0]);
    var fp := Fingerprint(digest([1]), 1, 1, 0);
    OneRecord(map[], Observation(P, Some(Present(1, 1, 0)), Some(fp)), NANOS);
    var second := Observation(P, Some(Present(1, 1, 0)), Some(Fingerprint(digest([2]), 1, 1, 0)));
    OneRecord(map[P := fp], second, 10 * NANOS);
  }

  lemma OneRecord(m: map<Path, Fingerprint>, ob: Observation, at: nat)
    ensures var r := RecordFor(m, ob, at, at);
            RecordsOf(m, [ob], at, at) == if r.None? then ([], m) else ([r.value], ApplyRecord(m, r.value))
  {
    assert [ob][..0] == [] && RecordsOf(m, [], at, at) == ([], m);
    var r := RecordFor(m, ob, at, at);
    if r.Some? {
      assert [] + [r.value] == [r.value];
    }
  }
}
