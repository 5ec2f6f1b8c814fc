// The change catalogue: content fingerprints by path, stamped with the
// generation that saw them change (changes/catalogue.rs:80-225).
module Catalogue {
  import opened Common
  import opened Snapshots

  datatype Fingerprint = Fingerprint(digest: nat, size: nat, mtimeSecs: int, mtimeNanos: nat)

  datatype Tracked = Tracked(fingerprint: Fingerprint, observedGeneration: nat)

  datatype Stat = Absent | Present(size: nat, mtimeSecs: int, mtimeNanos: nat)

  // What the disk answered for one candidate path: its metadata, if it could
  // be read, and the fingerprint that hashing gave, if hashing was possible.
  datatype Observation = Observation(path: Path, stat: Option<Stat>, hashed: Option<Fingerprint>)

  datatype Kind = Added | Modified | Deleted | Touched | Unchanged | Uncertain

  datatype Record = Record(path: Path, kind: Kind, current: Option<Fingerprint>, previous: Option<Fingerprint>)

  datatype Batch = Batch(generation: nat, records: seq<Record>, hasUncertainty: bool)

  // Nanoseconds since the epoch of the clock; none before it.
  function JoinTime(secs: int, nanos: nat): Option<nat> { if secs < 0 then None else Some(secs * NANOS + nanos) }

  // fingerprint.rs:146-154
  predicate IsSettled(fp: Fingerprint, readEpoch: nat, now: nat) {
    match JoinTime(fp.mtimeSecs, fp.mtimeNanos)
    case None => false
    case Some(mtime) => mtime <= now && mtime + RACY_MARGIN < readEpoch
  }

  predicate Matches(stat: Stat, fp: Fingerprint) {
    stat.Present? && stat.size == fp.size && stat.mtimeSecs == fp.mtimeSecs && stat.mtimeNanos == fp.mtimeNanos
  }

  // ---------------------------------------------------------------- one observation

  // The record an observation gives, against what is tracked.
  function RecordFor(m: map<Path, Fingerprint>, ob: Observation, readEpoch: nat, now: nat): Option<Record> {
    var prev := Find(m, ob.path);
    if ob.stat.None? then Some(Record(ob.path, Uncertain, None, prev))
    else if ob.stat.value.Absent? then
      if prev.Some? then Some(Record(ob.path, Deleted, None, prev)) else None
    else if prev.Some? && Matches(ob.stat.value, prev.value) && IsSettled(prev.value, readEpoch, now) then
      Some(Record(ob.path, Unchanged, prev, prev))
    else if ob.hashed.None? then Some(Record(ob.path, Uncertain, None, prev))
    else if prev.Some? && prev.value.digest == ob.hashed.value.digest then
      Some(Record(ob.path, Touched, ob.hashed, prev))
    else Some(Record(ob.path, if prev.Some? then Modified else Added, ob.hashed, prev))
  }

  predicate ChangesContent(kind: Kind) { kind == Added || kind == Modified || kind == Deleted }

  // A file that could be examined but not hashed; only this marks the batch.
  predicate Unhashable(m: map<Path, Fingerprint>, ob: Observation, readEpoch: nat, now: nat) {
    && ob.stat.Some? && ob.stat.value.Present? && ob.hashed.None?
    && RecordFor(m, ob, readEpoch, now) == Some(Record(ob.path, Uncertain, None, Find(m, ob.path)))
  }

  // What one candidate must come to, said in terms of what was tracked for its
  // path, what the disk answered, and what is tracked afterwards. The file is
  // taken for unchanged only when size and time are those tracked and the time
  // is neither before the epoch of the clock, nor to come, nor within two
  // seconds of when reading began.
  ghost predicate Accounts(prev: Option<Fingerprint>, ob: Observation, readEpoch: nat, now: nat, record: Option<Record>,
                           next: Option<Fingerprint>)
  {
    match ob.stat
    case None => next == prev && record == Some(Record(ob.path, Uncertain, None, prev))
    case Some(Absent) =>
      next == None && record == if prev.Some? then Some(Record(ob.path, Deleted, None, prev)) else None
    case Some(Present(size, secs, nanos)) =>
      if prev.Some? && SureOf(prev.value, size, secs, nanos, readEpoch, now) then
        next == prev && record == Some(Record(ob.path, Unchanged, prev, prev))
      else if ob.hashed.None? then
        next == prev && record == Some(Record(ob.path, Uncertain, None, prev))
      else
        && next == ob.hashed && record.Some?
        && record.value.path == ob.path && record.value.current == ob.hashed && record.value.previous == prev
        && (record.value.kind == Added <==> prev.None?)
        && (record.value.kind == Touched <==> prev.Some? && prev.value.digest == ob.hashed.value.digest)
        && (record.value.kind == Modified <==> prev.Some? && prev.value.digest != ob.hashed.value.digest)
  }

  ghost predicate SureOf(fp: Fingerprint, size: nat, secs: int, nanos: nat, readEpoch: nat, now: nat) {
    && fp.size == size && fp.mtimeSecs == secs && fp.mtimeNanos == nanos && secs >= 0
    && secs * 1_000_000_000 + nanos <= now && (secs + 2) * 1_000_000_000 + nanos < readEpoch
  }

  lemma RecordAccounts(m: map<Path, Fingerprint>, ob: Observation, readEpoch: nat, now: nat)
    ensures var r := RecordFor(m, ob, readEpoch, now);
            var m2 := if r.Some? then ApplyRecord(m, r.value) else m;
            && Accounts(Find(m, ob.path), ob, readEpoch, now, r, Find(m2, ob.path))
            && (forall p :: p != ob.path ==> Find(m2, p) == Find(m, p))
  {
  }

  lemma UnhashableExactly(m: map<Path, Fingerprint>, ob: Observation, readEpoch: nat, now: nat)
    ensures Unhashable(m, ob, readEpoch, now) <==>
              match ob.stat
              case None | Some(Absent) => false
              case Some(Present(size, secs, nanos)) =>
                ob.hashed.None?
                && !(ob.path in m && SureOf(m[ob.path], size, secs, nanos, readEpoch, now))
  {
  }

  // ---------------------------------------------------------------- replay

  // What a record does to a map of fingerprints, and to one of digests.
  function ApplyRecord(m: map<Path, Fingerprint>, r: Record): map<Path, Fingerprint> {
    match r.kind
    case Added | Modified | Touched => if r.current.Some? then m[r.path := r.current.value] else m
    case Deleted => m - {r.path}
    case Unchanged | Uncertain => m
  }

  function ReplayRecord(d: map<Path, nat>, r: Record): map<Path, nat> {
    match r.kind
    case Added | Modified => if r.current.Some? then d[r.path := r.current.value.digest] else d
    case Deleted => d - {r.path}
    case Touched | Unchanged | Uncertain => d
  }

  function Replay(d: map<Path, nat>, records: seq<Record>): map<Path, nat> {
    if |records| == 0 then d else ReplayRecord(Replay(d, records[..|records| - 1]), records[|records| - 1])
  }

  function Digests(m: map<Path, Fingerprint>): map<Path, nat> { map p | p in m :: m[p].digest }

  // A record that tells the truth about the map it is made against.
  predicate Truthful(m: map<Path, Fingerprint>, r: Record) {
    && r.previous == Find(m, r.path)
    && match r.kind
       case Added => r.previous.None? && r.current.Some?
       case Modified => r.previous.Some? && r.current.Some? && r.current.value.digest != r.previous.value.digest
       case Touched => r.previous.Some? && r.current.Some? && r.current.value.digest == r.previous.value.digest
       case Deleted => r.previous.Some? && r.current.None?
       case Unchanged => r.previous.Some? && r.current == r.previous
       case Uncertain => r.current.None?
  }

  // ---------------------------------------------------------------- a whole batch

  datatype CatState = CatState(generation: nat, entries: map<Path, Tracked>)

  function Prints(entries: map<Path, Tracked>): map<Path, Fingerprint> {
    map p | p in entries :: entries[p].fingerprint
  }

  // One candidate after another, each against what the earlier ones left.
  function RecordsOf(m: map<Path, Fingerprint>, obs: seq<Observation>, readEpoch: nat, now: nat)
    : (seq<Record>, map<Path, Fingerprint>)
  {
    if |obs| == 0 then ([], m)
    else
      var (records, m') := RecordsOf(m, obs[..|obs| - 1], readEpoch, now);
      var r := RecordFor(m', obs[|obs| - 1], readEpoch, now);
      if r.None? then (records, m') else (records + [r.value], ApplyRecord(m', r.value))
  }

  predicate AnyChange(records: seq<Record>) { exists i :: 0 <= i < |records| && ChangesContent(records[i].kind) }

  lemma RecordIsTruthful(m: map<Path, Fingerprint>, ob: Observation, readEpoch: nat, now: nat)
    ensures RecordFor(m, ob, readEpoch, now).Some? ==> Truthful(m, RecordFor(m, ob, readEpoch, now).value)
  {
  }

  lemma ReplayOne(m: map<Path, Fingerprint>, r: Record)
    requires Truthful(m, r)
    ensures ReplayRecord(Digests(m), r) == Digests(ApplyRecord(m, r))
    ensures ChangesContent(r.kind) <==> Digests(ApplyRecord(m, r)) != Digests(m)
  {
    var d, d2 := Digests(m), Digests(ApplyRecord(m, r));
    if ChangesContent(r.kind) {
      assert Find(d, r.path) != Find(d2, r.path);
    }
  }

  // Main batch theorem: for any candidates, repeated ones included, replaying
  // the records turns the digests before into the digests after; and without
  // a content change the digests stay as they were.
  lemma {:induction false} BatchReplays(m: map<Path, Fingerprint>, obs: seq<Observation>, readEpoch: nat, now: nat)
    ensures var (records, m') := RecordsOf(m, obs, readEpoch, now);
            Replay(Digests(m), records) == Digests(m') && (!AnyChange(records) ==> Digests(m') == Digests(m))
  {
    if |obs| != 0 {
      var n := |obs| - 1;
      BatchReplays(m, obs[..n], readEpoch, now);
      var (before, m1) := RecordsOf(m, obs[..n], readEpoch, now);
      var r := RecordFor(m1, obs[n], readEpoch, now);
      if r.Some? {
        RecordIsTruthful(m1, obs[n], readEpoch, now);
        ReplayOne(m1, r.value);
        assert (before + [r.value])[..|before|] == before;
        assert (before + [r.value])[|before|] == r.value;
        if AnyChange(before) {
          var i :| 0 <= i < |before| && ChangesContent(before[i].kind);
          assert ChangesContent((before + [r.value])[i].kind);
        }
      }
    }
  }

  function ApplyAll(m: map<Path, Fingerprint>, records: seq<Record>): map<Path, Fingerprint> {
    if |records| == 0 then m else ApplyRecord(ApplyAll(m, records[..|records| - 1]), records[|records| - 1])
  }

  // Every record tells the truth about the map that those before it leave.
  ghost predicate AllTruthful(m: map<Path, Fingerprint>, records: seq<Record>) {
    forall i :: 0 <= i < |records| ==> Truthful(ApplyAll(m, records[..i]), records[i])
  }

  // A batch is an exact account of fingerprints too: kinds, old and new values
  // fit, and applying them gives what is tracked afterwards.
  lemma {:induction false} BatchIsTruthful(m: map<Path, Fingerprint>, obs: seq<Observation>, readEpoch: nat, now: nat)
    ensures var (records, m') := RecordsOf(m, obs, readEpoch, now);
            AllTruthful(m, records) && ApplyAll(m, records) == m'
  {
    if |obs| != 0 {
      var n := |obs| - 1;
      BatchIsTruthful(m, obs[..n], readEpoch, now);
      var (before, m1) := RecordsOf(m, obs[..n], readEpoch, now);
      var r := RecordFor(m1, obs[n], readEpoch, now);
      if r.Some? {
        RecordIsTruthful(m1, obs[n], readEpoch, now);
        TruthfulSnoc(m, before, r.value);
      }
    }
  }

  lemma TruthfulSnoc(m: map<Path, Fingerprint>, before: seq<Record>, r: Record)
    requires AllTruthful(m, before) && Truthful(ApplyAll(m, before), r)
    ensures AllTruthful(m, before + [r]) && ApplyAll(m, before + [r]) == ApplyRecord(ApplyAll(m, before), r)
  {
    var records := before + [r];
    assert records[..|before|] == before;
    forall i | 0 <= i < |records| ensures Truthful(ApplyAll(m, records[..i]), records[i]) {
      if i < |before| {
        assert records[..i] == before[..i];
      }
    }
  }

  // ---------------------------------------------------------------- one path of a batch

  // The observation at `i` is the last one of its path.
  ghost predicate LastOf(obs: seq<Observation>, i: nat) {
    i < |obs| && forall j :: i < j < |obs| ==> obs[j].path != obs[i].path
  }

  ghost predicate FirstOf(obs: seq<Observation>, i: nat) {
    i < |obs| && forall j :: 0 <= j < i ==> obs[j].path != obs[i].path
  }

  // What the batch says of a path and leaves tracked for it is decided by its
  // last observation, against what the earlier ones of that path left; for a
  // path observed once that is what was tracked before the batch.
  lemma BatchAccounts(m: map<Path, Fingerprint>, obs: seq<Observation>, readEpoch: nat, now: nat, i: nat)
    returns (record: Option<Record>)
    requires LastOf(obs, i)
    ensures var p := obs[i].path;
            var (before, m1) := RecordsOf(m, obs[..i], readEpoch, now);
            var (records, m2) := RecordsOf(m, obs, readEpoch, now);
            && Accounts(Find(m1, p), obs[i], readEpoch, now, record, Find(m2, p))
            && before + (if record.Some? then [record.value] else []) <= records
            && (forall k :: |before| + (if record.Some? then 1 else 0) <= k < |records| ==> records[k].path != p)
            && (FirstOf(obs, i) ==> Find(m1, p) == Find(m, p))
  {
    var p := obs[i].path;
    record := RecordFor(RecordsOf(m, obs[..i], readEpoch, now).1, obs[i], readEpoch, now);
    RecordAccounts(RecordsOf(m, obs[..i], readEpoch, now).1, obs[i], readEpoch, now);
    assert obs[..i + 1][..i] == obs[..i] && obs[..|obs|] == obs && obs[..0] == [];
    OthersLeaveAlone(m, obs, readEpoch, now, p, i + 1, |obs|);
    if FirstOf(obs, i) {
      OthersLeaveAlone(m, obs, readEpoch, now, p, 0, i);
    }
  }

  // Observations of other paths say nothing of `p` and leave it as it is.
  lemma {:induction false} OthersLeaveAlone(m: map<Path, Fingerprint>, obs: seq<Observation>, readEpoch: nat, now: nat,
                                            p: Path, i: nat, j: nat)
    requires i <= j <= |obs| && forall k :: i <= k < j ==> obs[k].path != p
    ensures var (before, m1) := RecordsOf(m, obs[..i], readEpoch, now);
            var (records, m2) := RecordsOf(m, obs[..j], readEpoch, now);
            && before <= records && Find(m2, p) == Find(m1, p)
            && (forall k :: |before| <= k < |records| ==> records[k].path != p)
    decreases j
  {
    if i < j {
      OthersLeaveAlone(m, obs, readEpoch, now, p, i, j - 1);
      assert obs[..j][..j - 1] == obs[..j - 1];
      RecordAccounts(RecordsOf(m, obs[..j - 1], readEpoch, now).1, obs[j - 1], readEpoch, now);
    }
  }

  // When no path is observed twice, a batch reports a content change exactly
  // when some digest differs afterwards.
  lemma {:induction false} ChangesExactly(m: map<Path, Fingerprint>, obs: seq<Observation>, readEpoch: nat, now: nat)
    requires forall i :: 0 <= i < |obs| ==> FirstOf(obs, i)
    ensures var (records, m2) := RecordsOf(m, obs, readEpoch, now);
            AnyChange(records) <==> Digests(m2) != Digests(m)
  {
    var (records, m2) := RecordsOf(m, obs, readEpoch, now);
    BatchReplays(m, obs, readEpoch, now);
    if AnyChange(records) {
      var n := |obs| - 1;
      var p := obs[n].path;
      var (before, m1) := RecordsOf(m, obs[..n], readEpoch, now);
      var r := RecordFor(m1, obs[n], readEpoch, now);
      assert obs[..|obs|] == obs && obs[..0] == [];
      assert forall i :: 0 <= i < n ==> obs[..n][i] == obs[i] && FirstOf(obs, i);
      ChangesExactly(m, obs[..n], readEpoch, now);
      assert FirstOf(obs, n);
      OthersLeaveAlone(m, obs, readEpoch, now, p, 0, n);
      LastStepDiffers(m, m1, obs[n], readEpoch, now);
      if r.Some? {
        AnyChangeMore(before, r.value);
      }
    }
  }

  // A change made before by other paths, or made now, is still there.
  lemma LastStepDiffers(m: map<Path, Fingerprint>, m1: map<Path, Fingerprint>, ob: Observation, readEpoch: nat,
                        now: nat)
    requires Find(m1, ob.path) == Find(m, ob.path)
    ensures var r := RecordFor(m1, ob, readEpoch, now);
            var m2 := if r.Some? then ApplyRecord(m1, r.value) else m1;
            Digests(m1) != Digests(m) || (r.Some? && ChangesContent(r.value.kind)) ==> Digests(m2) != Digests(m)
  {
    var r := RecordFor(m1, ob, readEpoch, now);
    if r.Some? {
      RecordIsTruthful(m1, ob, readEpoch, now);
      var m2 := ApplyRecord(m1, r.value);
      if Digests(m2) == Digests(m) {
        assert forall p :: Find(Digests(m2), p) == Find(Digests(m), p);
        ReplayOne(m1, r.value);
        forall p ensures Find(Digests(m1), p) == Find(Digests(m), p) {
          if p != ob.path {
            assert Find(m2, p) == Find(m1, p);
          }
        }
        SameFinds(Digests(m1), Digests(m));
      }
    }
  }

  // ---------------------------------------------------------------- the catalogue as an object

  ghost predicate StateOk(s: CatState) {
    forall p :: p in s.entries ==> s.entries[p].observedGeneration <= s.generation
  }

  // One step of a catalogue: the entries that changed carry the new
  // generation, the others keep their digest and their stamp.
  ghost predicate Advances(s: CatState, t: CatState, records: seq<Record>) {
    && t.generation == s.generation + (if AnyChange(records) then 1 else 0)
    && Digests(Prints(t.entries)) == Replay(Digests(Prints(s.entries)), records)
    && (!AnyChange(records) ==> Digests(Prints(t.entries)) == Digests(Prints(s.entries)))
    && forall p :: p in t.entries ==>
         || t.entries[p].observedGeneration == s.generation + 1 == t.generation
         || KeptEntry(s, p, t.entries[p])
  }

  predicate KeptEntry(s: CatState, p: Path, e: Tracked) {
    && p in s.entries && s.entries[p].observedGeneration == e.observedGeneration
    && s.entries[p].fingerprint.digest == e.fingerprint.digest
  }

  // Every entry is either as it was, touched at most, or new in the next
  // generation.
  ghost predicate Stamped(s: CatState, entries: map<Path, Tracked>, contentChanged: bool) {
    forall p :: p in entries ==>
      KeptEntry(s, p, entries[p]) || (contentChanged && entries[p].observedGeneration == s.generation + 1)
  }

  predicate AnyUnhashable(m: map<Path, Fingerprint>, obs: seq<Observation>, readEpoch: nat, now: nat) {
    |obs| > 0 &&
    var init := obs[..|obs| - 1];
    || AnyUnhashable(m, init, readEpoch, now)
    || Unhashable(RecordsOf(m, init, readEpoch, now).1, obs[|obs| - 1], readEpoch, now)
  }

  class Catalogue {
    var generation: nat
    var entries: map<Path, Tracked>
    var consumers: map<string, nat>

    constructor (s: CatState, consumers: map<string, nat>)
      requires StateOk(s)
      ensures Valid() && State() == s && this.consumers == consumers
    {
      generation, entries, this.consumers := s.generation, s.entries, consumers;
    }

    ghost function State(): CatState reads this { CatState(generation, entries) }

    ghost predicate Valid() reads this { StateOk(State()) }

    method ObservePaths(obs: seq<Observation>, readEpoch: nat, now: nat) returns (batch: Batch)
      requires Valid()
      modifies this`generation, this`entries
      ensures Valid() && batch.generation == generation
      ensures (batch.records, Prints(entries)) == RecordsOf(Prints(old(entries)), obs, readEpoch, now)
      ensures Advances(old(State()), State(), batch.records)
      ensures batch.hasUncertainty <==> AnyUnhashable(Prints(old(entries)), obs, readEpoch, now)
      ensures (forall i :: 0 <= i < |obs| ==> FirstOf(obs, i)) ==>
                (generation != old(generation) <==> Digests(Prints(entries)) != Digests(Prints(old(entries))))
    {
      var records, contentChanged, hasUncertainty := [], false, false;
      ghost var m0 := Prints(entries);
      for i := 0 to |obs|
        invariant generation == old(generation) && contentChanged == AnyChange(records)
        invariant (records, Prints(entries)) == RecordsOf(m0, obs[..i], readEpoch, now)
        invariant hasUncertainty <==> AnyUnhashable(m0, obs[..i], readEpoch, now)
        invariant Stamped(old(State()), entries, contentChanged)
      {
        var changed, uncertain, record := ObserveOne(obs[i], readEpoch, now);
        assert obs[..i + 1][..i] == obs[..i];
        if record.Some? {
          AnyChangeMore(records, record.value);
          records := records + [record.value];
        }
        contentChanged := contentChanged || changed;
        hasUncertainty := hasUncertainty || uncertain;
      }
      assert obs[..|obs|] == obs;
      BatchReplays(m0, obs, readEpoch, now);
      if forall i :: 0 <= i < |obs| ==> FirstOf(obs, i) {
        ChangesExactly(m0, obs, readEpoch, now);
      }
      if contentChanged {
        generation := generation + 1;
      }
      batch := Batch(generation, records, hasUncertainty);
    }

    // One candidate (catalogue.rs:91-203).
    method ObserveOne(ob: Observation, readEpoch: nat, now: nat)
      returns (contentChanged: bool, uncertain: bool, record: Option<Record>)
      modifies this`entries
      ensures record == RecordFor(Prints(old(entries)), ob, readEpoch, now)
      ensures Prints(entries)
           == if record.Some? then ApplyRecord(Prints(old(entries)), record.value) else Prints(old(entries))
      ensures Accounts(Find(Prints(old(entries)), ob.path), ob, readEpoch, now, record,
                       Find(Prints(entries), ob.path))
      ensures contentChanged <==> record.Some? && ChangesContent(record.value.kind)
      ensures contentChanged <==> Digests(Prints(entries)) != Digests(Prints(old(entries)))
      ensures uncertain <==> Unhashable(Prints(old(entries)), ob, readEpoch, now)
      ensures Stamped(old(State()), entries, contentChanged)
    {
      contentChanged, uncertain := false, false;
      var rel := ob.path;
      ghost var m0 := Prints(entries);
      RecordAccounts(m0, ob, readEpoch, now);
      if RecordFor(m0, ob, readEpoch, now).Some? {
        RecordIsTruthful(m0, ob, readEpoch, now);
        ReplayOne(m0, RecordFor(m0, ob, readEpoch, now).value);
      }
      if ob.stat.None? {
        var prevFp := if rel in entries then Some(entries[rel].fingerprint) else None;
        return contentChanged, uncertain, Some(Record(rel, Uncertain, None, prevFp));
      }
      match ob.stat.value
      case Absent =>
        if rel in entries {
          var prev := entries[rel];
          entries := entries - {rel};
          return true, uncertain, Some(Record(rel, Deleted, None, Some(prev.fingerprint)));
        }
        record := None;
      case Present(_, _, _) =>
        var prev := if rel in entries then Some(entries[rel]) else None;
        var prevFp := if prev.Some? then Some(prev.value.fingerprint) else None;
        if
          && prev.Some? && Matches(ob.stat.value, prev.value.fingerprint)
          && IsSettled(prev.value.fingerprint, readEpoch, now)
        {
          return contentChanged, uncertain, Some(Record(rel, Unchanged, prevFp, prevFp));
        }
        match ob.hashed
        case None =>
          return contentChanged, true, Some(Record(rel, Uncertain, None, prevFp));
        case Some(fp) =>
          if prev.Some? && prev.value.fingerprint.digest == fp.digest {
            entries := entries[rel := Tracked(fp, prev.value.observedGeneration)];
            return contentChanged, uncertain, Some(Record(rel, Touched, Some(fp), prevFp));
          }
          contentChanged := true;
          entries := entries[rel := Tracked(fp, generation + 1)];
          record := Some(Record(rel, if prev.Some? then Modified else Added, Some(fp), prevFp));
    }

    // catalogue.rs:214-219
    method Acknowledge(consumer: string, upTo: nat)
      modifies this`consumers
      ensures Applied(consumer) == Max(old(Applied(consumer)), upTo)
      ensures forall c :: c != consumer ==> Applied(c) == old(Applied(c))
      ensures consumer in consumers && Lag(consumer) == SatSub(generation, Max(old(Applied(consumer)), upTo))
    {
      if consumer !in consumers {
        consumers := consumers[consumer := 0];
      }
      if upTo > consumers[consumer] {
        consumers := consumers[consumer := upTo];
      }
    }

    function Applied(consumer: string): nat reads this { if consumer in consumers then consumers[consumer] else 0 }

    function Lag(consumer: string): nat reads this { SatSub(generation, Applied(consumer)) }
  }

  lemma AnyChangeMore(records: seq<Record>, r: Record)
    ensures AnyChange(records + [r]) <==> AnyChange(records) || ChangesContent(r.kind)
  {
    var more := records + [r];
    assert more[|records|] == r;
    assert forall i :: 0 <= i < |records| ==> more[i] == records[i];
  }

  // ---------------------------------------------------------------- runs

  ghost predicate CatRun(states: seq<CatState>, batches: seq<seq<Record>>) {
    && |states| == |batches| + 1
    && forall i :: 0 <= i < |batches| ==> Advances(states[i], states[i + 1], batches[i])
  }

  // Along every run generations never go back, equal generations mean equal
  // digests, and an entry stamped no later than generation g has the digest it
  // had at g.
  lemma {:induction false} DigestsFollowGeneration(states: seq<CatState>, batches: seq<seq<Record>>, i: nat, j: nat)
    requires CatRun(states, batches) && i <= j < |states|
    ensures states[i].generation <= states[j].generation
    ensures states[i].generation == states[j].generation ==>
              Digests(Prints(states[i].entries)) == Digests(Prints(states[j].entries))
    ensures forall p :: p in states[j].entries && states[j].entries[p].observedGeneration <= states[i].generation ==>
              KeptEntry(states[i], p, states[j].entries[p])
    decreases j
  {
    if i < j {
      DigestsFollowGeneration(states, batches, i, j - 1);
      assert Advances(states[j - 1], states[j], batches[j - 1]);
      forall p | p in states[j].entries && states[j].entries[p].observedGeneration <= states[i].generation
        ensures KeptEntry(states[i], p, states[j].entries[p])
      {
        assert KeptEntry(states[j - 1], p, states[j].entries[p]);
        assert KeptEntry(states[i], p, states[j - 1].entries[p]);
      }
    }
  }

  lemma {:induction false} StampsStayBelow(states: seq<CatState>, batches: seq<seq<Record>>, j: nat)
    requires CatRun(states, batches) && j < |states| && StateOk(states[0])
    ensures StateOk(states[j])
  {
    if j > 0 {
      StampsStayBelow(states, batches, j - 1);
      assert Advances(states[j - 1], states[j], batches[j - 1]);
    }
  }
}
