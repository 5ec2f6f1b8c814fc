// The lock protocol of the index directory, for any number of handles in any
// number of processes. There are two locks: a shared/exclusive lock on the
// directory and an exclusive `write.lock`. Every acquisition is a try: it
// succeeds or fails at once. A flock belongs to an open file, and a durable
// operation opens a second one, so a handle can hold the directory lock twice.
//
//   flush, compact   flush.rs:217-244, mod.rs:347-376, delta_apply.rs:41-61,180-189
//   build            build.rs:68-74,355-369, update.rs:319-338
//   open, commit     open.rs:26-84, commit.rs:65-72
module Locks {

  datatype Mode = Unlocked | Shared | Exclusive

  datatype Phase =
    | Opening    // took the shared lock, manifest not read yet
    | Idle
    | Stranded   // a durable operation failed and the shared lock is not back
    | Committing // holds write.lock
    | Captured   // holds write.lock, has taken the snapshot to flush or compact
    | Released(writer: bool) // let go of its shared lock
    | ExclusiveOnly // build: exclusive first, write.lock next
    | Guarding   // both locks, comparing snapshot and manifest
    | Writing    // both locks, changing files
    | Downgrading // gave up exclusive, still holds write.lock
    | Downgraded  // shared on the second file, still holds write.lock
    | Reopening   // shared on the second file only
    | Reopened    // manifest read again

  // `base` says which manifest the snapshot was opened from, `next` which one
  // a reopened snapshot was. `failed` is set by a failed durable operation and
  // cleared by a successful one.
  datatype Handle = Handle(phase: Phase, own: Mode, op: Mode, base: nat, next: nat, failed: bool)

  // `writers` are the holders of write.lock. Published manifests are told apart
  // by numbers, of which `unused` and those above are still to come.
  datatype Sys = Sys(handles: map<nat, Handle>, writers: set<nat>, manifest: nat, unused: nat)

  predicate NoWriter(s: Sys) { s.writers == {} }

  // A shared lock can be had unless someone holds the exclusive one.
  ghost predicate CanShare(s: Sys) {
    forall k :: k in s.handles ==> s.handles[k].own != Exclusive && s.handles[k].op != Exclusive
  }

  ghost predicate CanExclude(s: Sys) {
    forall k :: k in s.handles ==> s.handles[k].own == Unlocked && s.handles[k].op == Unlocked
  }

  datatype Action =
    | Open | Load | BuildNew | Rebuild
    | BeginCommit | EndCommit
    | Capture | Skip | Release
    | TryExclusive | TryWriter | Guard
    | Write | Publish
    | GiveUpExclusive | TakeShared | DropWriter | Reload | Install
    | Fail | Recover | Close

  function Put(s: Sys, h: nat, x: Handle): Sys { s.(handles := s.handles[h := x]) }

  function Grab(s: Sys, h: nat): Sys { s.(writers := s.writers + {h}) }

  function Drop(s: Sys, h: nat): Sys { s.(writers := s.writers - {h}) }

  // The guard compares counts and base ids, which agree when the snapshot is
  // of the manifest on disk and may agree by coincidence when it is not. A
  // handle can be behind only after a failure, and is then let through or not.
  predicate MayPass(s: Sys, x: Handle) { x.base == s.manifest || x.failed }

  // What handle `h` may do next. A try that fails changes nothing, except
  // through `Fail`.
  ghost predicate Next(s: Sys, h: nat, a: Action, t: Sys) {
    if a == Open then h !in s.handles && CanShare(s) && t == Put(s, h, Handle(Opening, Shared, Unlocked, 0, 0, false))
    else if a == BuildNew then
      h !in s.handles && t == Put(s, h, Handle(Released(false), Unlocked, Unlocked, 0, 0, false))
    else
      && h in s.handles
      && var x := s.handles[h];
         match a
         case Load => x.phase == Opening && t == Put(s, h, x.(phase := Idle, base := s.manifest))
         case Rebuild =>
           (x.phase == Idle || x.phase == Stranded) && t == Put(s, h, x.(phase := Released(false), own := Unlocked))
         case BeginCommit =>
           (x.phase == Idle || x.phase == Stranded) && NoWriter(s) && t == Grab(Put(s, h, x.(phase := Committing)), h)
         case EndCommit => x.phase == Committing && t == Drop(Put(s, h, x.(phase := Settle(x))), h)
         case Capture =>
           (x.phase == Idle || x.phase == Stranded) && NoWriter(s) && t == Grab(Put(s, h, x.(phase := Captured)), h)
         case Skip => x.phase == Captured && t == Drop(Put(s, h, x.(phase := Settle(x))), h)
         case Release => x.phase == Captured && t == Put(s, h, x.(phase := Released(true), own := Unlocked))
         case TryExclusive =>
           && x.phase.Released? && CanExclude(s)
           && t == Put(s, h, x.(phase := if x.phase.writer then Guarding else ExclusiveOnly, op := Exclusive))
         case TryWriter => x.phase == ExclusiveOnly && NoWriter(s) && t == Grab(Put(s, h, x.(phase := Writing)), h)
         case Guard => x.phase == Guarding && MayPass(s, x) && t == Put(s, h, x.(phase := Writing))
         case Write => x.phase == Writing && t == s
         case Publish => x.phase == Writing && t == s.(manifest := s.unused, unused := s.unused + 1)
         case GiveUpExclusive => x.phase == Writing && t == Put(s, h, x.(phase := Downgrading, op := Unlocked))
         case TakeShared =>
           x.phase == Downgrading && CanShare(s) && t == Put(s, h, x.(phase := Downgraded, op := Shared))
         case DropWriter => x.phase == Downgraded && t == Drop(Put(s, h, x.(phase := Reopening)), h)
         case Reload => x.phase == Reopening && t == Put(s, h, x.(phase := Reopened, next := s.manifest))
         case Install =>
           x.phase == Reopened && CanShare(s) && t == Put(s, h, Handle(Idle, Shared, Unlocked, x.next, x.next, false))
         case Fail =>
           && InOperation(x.phase)
           && t == Drop(Put(s, h, x.(phase := Stranded, own := Unlocked, op := Unlocked, failed := true)), h)
         case Recover => x.phase == Stranded && CanShare(s) && t == Put(s, h, x.(phase := Idle, own := Shared))
         case Close => t == Drop(s.(handles := s.handles - {h}), h)
         case _ => false
  }

  function Settle(x: Handle): Phase { if x.own == Shared then Idle else Stranded }

  predicate InOperation(p: Phase) {
    || p.Released? || p == ExclusiveOnly || p == Guarding || p == Writing
    || p == Downgrading || p == Downgraded || p == Reopening || p == Reopened
  }

  // ---------------------------------------------------------------- invariant

  predicate HasWriter(p: Phase) {
    || p == Committing || p == Captured || p == Released(true)
    || p == Guarding || p == Writing || p == Downgrading || p == Downgraded
  }

  predicate OwnMode(x: Handle) {
    if x.phase == Opening || x.phase == Idle then x.own == Shared
    else if x.phase == Committing || x.phase == Captured then x.own == Shared || (x.own == Unlocked && x.failed)
    else x.own == Unlocked
  }

  predicate OpMode(x: Handle) {
    if x.phase == ExclusiveOnly || x.phase == Guarding || x.phase == Writing then x.op == Exclusive
    else if x.phase == Downgraded || x.phase == Reopening || x.phase == Reopened then x.op == Shared
    else x.op == Unlocked
  }

  predicate KeepsBase(p: Phase) {
    p == Idle || p == Committing || p == Captured || p == Released(true) || p == Guarding
  }

  // The snapshot was opened from the manifest that is on disk.
  predicate InStep(s: Sys, x: Handle) {
    && (!x.failed && KeepsBase(x.phase) ==> x.base == s.manifest)
    && (x.phase == Reopened ==> x.next == s.manifest)
  }

  ghost predicate HandleOk(s: Sys, h: nat)
    requires h in s.handles
  {
    var x := s.handles[h];
    && OwnMode(x) && OpMode(x) && InStep(s, x)
    && (h in s.writers <==> HasWriter(x.phase))
    && (x.phase == Stranded ==> x.failed)
  }

  // Nobody else holds the directory lock in any mode.
  ghost predicate Alone(s: Sys, h: nat) {
    forall k :: k in s.handles && k != h ==> s.handles[k].own == Unlocked && s.handles[k].op == Unlocked
  }

  ghost predicate OneWriter(s: Sys) { forall h, k :: h in s.writers && k in s.writers ==> h == k }

  ghost predicate Inv(s: Sys) {
    && (forall h :: h in s.handles ==> HandleOk(s, h))
    && (forall h :: h in s.handles && s.handles[h].op == Exclusive ==> Alone(s, h))
    && (forall h :: h in s.writers ==> h in s.handles)
    && OneWriter(s)
  }

  function Start(): Sys { Sys(map[], {}, 0, 1) }

  lemma StartInv()
    ensures Inv(Start())
  {
  }

  // ---------------------------------------------------------------- preservation

  // What a step must establish: the acting handle is fine, the others keep
  // what they relied on.
  lemma Preserved(s: Sys, h: nat, t: Sys)
    requires Inv(s) && h in t.handles && HandleOk(t, h)
    requires t.handles.Keys == s.handles.Keys + {h}
    requires forall k :: k in s.handles && k != h ==> t.handles[k] == s.handles[k]
    requires forall k :: k != h ==> (k in t.writers <==> k in s.writers)
    requires t.manifest == s.manifest || (Alone(s, h) && h in s.writers)
    requires t.handles[h].op == Exclusive ==> Alone(s, h)
    requires t.handles[h].own != Unlocked || t.handles[h].op == Shared ==> NoExclusiveBut(s, h)
    requires h in t.writers ==> h in s.writers || NoWriter(s)
    ensures Inv(t)
  {
    forall k | k in t.handles ensures HandleOk(t, k) {
      if k != h {
        assert HandleOk(s, k);
      }
    }
    forall k | k in t.handles && t.handles[k].op == Exclusive ensures Alone(t, k) {
      if k != h && s.handles[k].op == Exclusive {
        AloneStays(s, h, t, k);
      }
    }
  }

  lemma AloneStays(s: Sys, h: nat, t: Sys, k: nat)
    requires k in s.handles && k != h && h in t.handles && Alone(s, k)
    requires t.handles.Keys == s.handles.Keys + {h}
    requires forall l :: l in s.handles && l != h ==> t.handles[l] == s.handles[l]
    requires t.handles[h].own == Unlocked && t.handles[h].op == Unlocked
    ensures Alone(t, k)
  {
  }

  ghost predicate NoExclusiveBut(s: Sys, h: nat) {
    forall k :: k in s.handles && k != h ==> s.handles[k].own != Exclusive && s.handles[k].op != Exclusive
  }

  // While a handle holds a shared lock, no other holds the exclusive one.
  lemma SharedExcludes(s: Sys, h: nat)
    requires Inv(s) && h in s.handles && (s.handles[h].own == Shared || s.handles[h].op == Shared)
    ensures NoExclusiveBut(s, h)
  {
    forall k | k in s.handles && k != h ensures s.handles[k].own != Exclusive && s.handles[k].op != Exclusive {
      assert HandleOk(s, k);
      assert s.handles[k].op == Exclusive ==> Alone(s, k);
    }
  }

  lemma CloseInv(s: Sys, h: nat, t: Sys)
    requires Inv(s) && h in s.handles && Next(s, h, Close, t)
    ensures Inv(t)
  {
    forall k | k in t.handles ensures HandleOk(t, k) {
      assert HandleOk(s, k);
    }
    forall k | k in t.handles && t.handles[k].op == Exclusive ensures Alone(t, k) {
      assert Alone(s, k);
    }
  }

  // Only the acting handle changes.
  lemma StepFrame(s: Sys, h: nat, a: Action, t: Sys)
    requires Next(s, h, a, t) && a != Close
    ensures h in t.handles && t.handles.Keys == s.handles.Keys + {h}
    ensures forall k :: k in s.handles && k != h ==> t.handles[k] == s.handles[k]
    ensures forall k :: k != h ==> (k in t.writers <==> k in s.writers)
    ensures h in t.writers ==> h in s.writers || NoWriter(s)
  {
  }

  lemma StepModes(s: Sys, h: nat, a: Action, t: Sys)
    requires Next(s, h, a, t) && a != Close && h in t.handles
    requires h in s.handles ==>
               OwnMode(s.handles[h]) && OpMode(s.handles[h]) && (s.handles[h].phase == Stranded ==> s.handles[h].failed)
    ensures OwnMode(t.handles[h]) && OpMode(t.handles[h]) && (t.handles[h].phase == Stranded ==> t.handles[h].failed)
  {
  }

  lemma StepWriter(s: Sys, h: nat, a: Action, t: Sys)
    requires Next(s, h, a, t) && a != Close && h in t.handles
    requires h in s.handles ==> (h in s.writers <==> HasWriter(s.handles[h].phase))
    requires h !in s.handles ==> h !in s.writers
    ensures h in t.writers <==> HasWriter(t.handles[h].phase)
  {
  }

  lemma StepInStep(s: Sys, h: nat, a: Action, t: Sys)
    requires Next(s, h, a, t) && a != Close && h in t.handles
    requires h in s.handles ==> InStep(s, s.handles[h]) && (s.handles[h].phase == Stranded ==> s.handles[h].failed)
    ensures InStep(t, t.handles[h])
  {
  }

  lemma StepHandleOk(s: Sys, h: nat, a: Action, t: Sys)
    requires Next(s, h, a, t) && a != Close && h in t.handles
    requires h in s.handles ==> HandleOk(s, h)
    requires h !in s.handles ==> h !in s.writers
    ensures HandleOk(t, h)
  {
    StepModes(s, h, a, t);
    StepWriter(s, h, a, t);
    StepInStep(s, h, a, t);
  }

  lemma StepExclusion(s: Sys, h: nat, a: Action, t: Sys)
    requires Inv(s) && Next(s, h, a, t) && a != Close && h in t.handles
    ensures t.manifest == s.manifest || (Alone(s, h) && h in s.writers)
    ensures t.handles[h].op == Exclusive ==> Alone(s, h)
    ensures t.handles[h].own != Unlocked || t.handles[h].op == Shared ==> NoExclusiveBut(s, h)
  {
    if h in s.handles {
      assert HandleOk(s, h);
      if s.handles[h].own == Shared || s.handles[h].op == Shared {
        SharedExcludes(s, h);
      }
    }
  }

  lemma NextInv(s: Sys, h: nat, a: Action, t: Sys)
    requires Inv(s) && Next(s, h, a, t)
    ensures Inv(t)
  {
    if a == Close {
      CloseInv(s, h, t);
    } else {
      StepFrame(s, h, a, t);
      StepHandleOk(s, h, a, t);
      StepExclusion(s, h, a, t);
      Preserved(s, h, t);
    }
  }

  // ---------------------------------------------------------------- runs

  ghost predicate IsRun(states: seq<Sys>, steps: seq<(nat, Action)>) {
    && |states| == |steps| + 1 && states[0] == Start()
    && forall i :: 0 <= i < |steps| ==> Next(states[i], steps[i].0, steps[i].1, states[i + 1])
  }

  lemma {:induction false} RunInv(states: seq<Sys>, steps: seq<(nat, Action)>, i: nat)
    requires IsRun(states, steps) && i <= |steps|
    ensures Inv(states[i])
  {
    if i == 0 {
      StartInv();
    } else {
      RunInv(states, steps, i - 1);
      NextInv(states[i - 1], steps[i - 1].0, steps[i - 1].1, states[i]);
    }
  }

  // In every run, whoever changes a file or the manifest holds both locks,
  // alone: no other handle holds write.lock, or the directory lock in any mode.
  lemma WritersExclude(states: seq<Sys>, steps: seq<(nat, Action)>, i: nat)
    requires IsRun(states, steps) && i < |steps|
    requires steps[i].1 == Write || steps[i].1 == Publish
    ensures var s, h := states[i], steps[i].0;
            s.writers == {h} && h in s.handles && s.handles[h].op == Exclusive && Alone(s, h)
  {
    RunInv(states, steps, i);
    assert Next(states[i], steps[i].0, steps[i].1, states[i + 1]);
    assert HandleOk(states[i], steps[i].0);
  }

  // In every run, at every point, a handle that holds its shared lock and has
  // no failed durable operation behind it describes the base that is on disk.
  lemma SharedHoldersInStep(states: seq<Sys>, steps: seq<(nat, Action)>, i: nat, h: nat)
    requires IsRun(states, steps) && i <= |steps| && h in states[i].handles
    requires states[i].handles[h].own == Shared && states[i].handles[h].phase != Opening && !states[i].handles[h].failed
    ensures states[i].handles[h].base == states[i].manifest
  {
    RunInv(states, steps, i);
    assert HandleOk(states[i], h);
  }

  // Through the gap between giving up shared and getting exclusive, too: the
  // consistency guard never turns such a handle away.
  lemma GuardPasses(states: seq<Sys>, steps: seq<(nat, Action)>, i: nat, h: nat)
    requires IsRun(states, steps) && i <= |steps| && h in states[i].handles
    requires states[i].handles[h].phase == Guarding && !states[i].handles[h].failed
    ensures exists t :: Next(states[i], h, Guard, t)
  {
    RunInv(states, steps, i);
    assert HandleOk(states[i], h);
    var s := states[i];
    assert Next(s, h, Guard, Put(s, h, s.handles[h].(phase := Writing)));
  }

  // And through the downgrade: what a durable operation reopens is the
  // manifest still on disk when it installs it.
  lemma InstallsCurrent(states: seq<Sys>, steps: seq<(nat, Action)>, i: nat)
    requires IsRun(states, steps) && i < |steps| && steps[i].1 == Install
    ensures states[i + 1].handles[steps[i].0].base == states[i + 1].manifest
  {
    RunInv(states, steps, i);
    assert Next(states[i], steps[i].0, steps[i].1, states[i + 1]);
    assert HandleOk(states[i], steps[i].0);
  }

  // Nobody reads the manifest while somebody is changing the directory.
  lemma ReadersExclude(states: seq<Sys>, steps: seq<(nat, Action)>, i: nat, k: nat)
    requires IsRun(states, steps) && i < |steps| && (steps[i].1 == Load || steps[i].1 == Reload)
    requires k in states[i].handles
    ensures states[i].handles[k].phase != Writing
  {
    RunInv(states, steps, i);
    assert Next(states[i], steps[i].0, steps[i].1, states[i + 1]);
    assert HandleOk(states[i], steps[i].0);
    assert HandleOk(states[i], k);
    SharedExcludes(states[i], steps[i].0);
  }

  ghost predicate Reachable(s: Sys) { exists states, steps :: IsRun(states, steps) && states[|steps|] == s }

  lemma Reach(s: Sys, h: nat, a: Action, t: Sys)
    requires Reachable(s) && Next(s, h, a, t)
    ensures Reachable(t)
  {
    var states, steps :| IsRun(states, steps) && states[|steps|] == s;
    assert IsRun(states + [t], steps + [(h, a)]) && (states + [t])[|steps + [(h, a)]|] == t;
  }

  // A handle alone, whose durable operation has failed.
  function FailedAlone(): Sys { Sys(map[0 := Handle(Stranded, Unlocked, Unlocked, 0, 0, true)], {}, 0, 1) }

  function CapturedAlone(): Sys { Sys(map[0 := Handle(Captured, Shared, Unlocked, 0, 0, false)], {0}, 0, 1) }

  lemma CapturedAloneReachable()
    ensures Reachable(CapturedAlone())
  {
    var none: seq<(nat, Action)> := [];
    assert IsRun([Start()], none) && [Start()][|none|] == Start();
    var x := Handle(Opening, Shared, Unlocked, 0, 0, false);
    var s1, s2 := Sys(map[0 := x], {}, 0, 1), Sys(map[0 := x.(phase := Idle)], {}, 0, 1);
    Reach(Start(), 0, Open, s1);
    Reach(s1, 0, Load, s2);
    Reach(s2, 0, Capture, CapturedAlone());
  }

  lemma FailedAloneReachable()
    ensures Reachable(FailedAlone())
  {
    CapturedAloneReachable();
    var s := Sys(map[0 := Handle(Released(true), Unlocked, Unlocked, 0, 0, false)], {0}, 0, 1);
    Reach(CapturedAlone(), 0, Release, s);
    Reach(s, 0, Fail, FailedAlone());
  }

  // The proviso about failed operations is needed: another process can publish
  // between a failure and getting the shared lock back.
  function Lagging(): Sys {
    Sys(map[0 := Handle(Idle, Shared, Unlocked, 0, 0, true), 1 := Handle(Downgrading, Unlocked, Unlocked, 0, 0, false)],
        {1}, 1, 2)
  }

  lemma FailedHandleMayLag() returns (s: Sys)
    ensures Reachable(s) && s == Lagging()
    ensures 0 in s.handles && s.handles[0].phase == Idle && s.handles[0].own == Shared
    ensures s.handles[0].base != s.manifest
  {
    FailedAloneReachable();
    var x, y := FailedAlone().handles[0], Handle(Released(false), Unlocked, Unlocked, 0, 0, false);
    var s1 := Sys(map[0 := x, 1 := y], {}, 0, 1);
    var s2 := Sys(map[0 := x, 1 := y.(phase := ExclusiveOnly, op := Exclusive)], {}, 0, 1);
    var s3 := Sys(map[0 := x, 1 := y.(phase := Writing, op := Exclusive)], {1}, 0, 1);
    Reach(FailedAlone(), 1, BuildNew, s1);
    Reach(s1, 1, TryExclusive, s2);
    Reach(s2, 1, TryWriter, s3);
    LagBehind(s3, x, y);
    s := Lagging();
  }

  lemma LagBehind(s3: Sys, x: Handle, y: Handle)
    requires x == Handle(Stranded, Unlocked, Unlocked, 0, 0, true)
    requires y == Handle(Released(false), Unlocked, Unlocked, 0, 0, false)
    requires s3 == Sys(map[0 := x, 1 := y.(phase := Writing, op := Exclusive)], {1}, 0, 1) && Reachable(s3)
    ensures Reachable(Lagging())
  {
    var s4 := s3.(manifest := 1, unused := 2);
    var s5 := Sys(map[0 := x, 1 := y.(phase := Downgrading)], {1}, 1, 2);
    Reach(s3, 1, Publish, s4);
    Reach(s4, 1, GiveUpExclusive, s5);
    Reach(s5, 0, Recover, Lagging());
  }

  // The same handle alone, on its way through a durable operation.
  function LaggingAlone(phase: Phase, own: Mode, op: Mode, writers: set<nat>): Sys {
    Sys(map[0 := Handle(phase, own, op, 0, 0, true)], writers, 1, 2)
  }

  lemma LaggingReleases()
    ensures Reachable(LaggingAlone(Released(true), Unlocked, Unlocked, {0}))
  {
    var s := FailedHandleMayLag();
    assert s.handles - {1} == LaggingAlone(Idle, Shared, Unlocked, {}).handles;
    Reach(s, 1, Close, LaggingAlone(Idle, Shared, Unlocked, {}));
    Reach(LaggingAlone(Idle, Shared, Unlocked, {}), 0, Capture, LaggingAlone(Captured, Shared, Unlocked, {0}));
    Reach(LaggingAlone(Captured, Shared, Unlocked, {0}), 0, Release,
          LaggingAlone(Released(true), Unlocked, Unlocked, {0}));
  }

  // Such a handle can get to changing files: its guard may let it through.
  lemma LaggingHandleMayWrite() returns (s: Sys)
    ensures Reachable(s) && 0 in s.handles && s.handles[0].phase == Writing && s.handles[0].base != s.manifest
  {
    LaggingReleases();
    var s4 := LaggingAlone(Guarding, Unlocked, Exclusive, {0});
    s := LaggingAlone(Writing, Unlocked, Exclusive, {0});
    Reach(LaggingAlone(Released(true), Unlocked, Unlocked, {0}), 0, TryExclusive, s4);
    Reach(s4, 0, Guard, s);
  }

  // ---------------------------------------------------------------- nothing is in the way

  function Only(h: nat, x: Handle, writers: set<nat>, manifest: nat, unused: nat): Sys {
    Sys(map[h := x], writers, manifest, unused)
  }

  // Handle `h` gets from one state to the other by these steps of its own.
  ghost predicate Gets(s: Sys, h: nat, steps: seq<Action>, t: Sys)
    decreases |steps|
  {
    if |steps| == 0 then s == t else exists mid :: Next(s, h, steps[0], mid) && Gets(mid, h, steps[1..], t)
  }

  lemma GetsBy(s: Sys, h: nat, a: Action, mid: Sys, rest: seq<Action>, t: Sys)
    requires Next(s, h, a, mid) && Gets(mid, h, rest, t)
    ensures Gets(s, h, [a] + rest, t)
  {
    assert ([a] + rest)[1..] == rest;
  }

  // With no other handle about, an open one that is in step gets through a
  // whole durable operation, try after try, and ends open on what it wrote.
  lemma AloneCompletes(h: nat, x: Handle, u: nat)
    requires x.phase == Idle && x.own == Shared && x.op == Unlocked && !x.failed
    ensures Gets(Only(h, x, {}, x.base, u), h,
                 [Capture] + ([Release] + ([TryExclusive] + ([Guard] + ([Write] + ([Publish] + ([GiveUpExclusive]
                 + ([TakeShared] + ([DropWriter] + ([Reload] + ([Install] + [])))))))))),
                 Only(h, Handle(Idle, Shared, Unlocked, u, u, false), {}, u, u + 1))
  {
    var end, away := Only(h, Handle(Idle, Shared, Unlocked, u, u, false), {}, u, u + 1), x.(own := Unlocked);
    var last := [Reload] + ([Install] + []);
    var middle := [GiveUpExclusive] + ([TakeShared] + ([DropWriter] + last));
    var first := [Write] + ([Publish] + middle);
    Reopens(h, away, u);
    DropsWriter(h, away, u, last, end);
    TakesShared(h, away, u, [DropWriter] + last, end);
    GivesUp(h, away, u, [TakeShared] + ([DropWriter] + last), end);
    Publishes(h, away, u, middle, end);
    Guards(h, away, u, first, end);
    Excludes(h, away, u, [Guard] + first, end);
    Releases(h, x, u, [TryExclusive] + ([Guard] + first), end);
    Captures(h, x, u, [Release] + ([TryExclusive] + ([Guard] + first)), end);
  }

  lemma Captures(h: nat, x: Handle, u: nat, rest: seq<Action>, end: Sys)
    requires x.phase == Idle && Gets(Only(h, x.(phase := Captured), {h}, x.base, u), h, rest, end)
    ensures Gets(Only(h, x, {}, x.base, u), h, [Capture] + rest, end)
  {
    GetsBy(Only(h, x, {}, x.base, u), h, Capture, Only(h, x.(phase := Captured), {h}, x.base, u), rest, end);
  }

  lemma Releases(h: nat, x: Handle, u: nat, rest: seq<Action>, end: Sys)
    requires Gets(Only(h, x.(own := Unlocked, phase := Released(true)), {h}, x.base, u), h, rest, end)
    ensures Gets(Only(h, x.(phase := Captured), {h}, x.base, u), h, [Release] + rest, end)
  {
    GetsBy(Only(h, x.(phase := Captured), {h}, x.base, u), h, Release,
           Only(h, x.(own := Unlocked, phase := Released(true)), {h}, x.base, u), rest, end);
  }

  lemma Excludes(h: nat, away: Handle, u: nat, rest: seq<Action>, end: Sys)
    requires away.own == Unlocked && away.op == Unlocked
    requires Gets(Only(h, away.(phase := Guarding, op := Exclusive), {h}, away.base, u), h, rest, end)
    ensures Gets(Only(h, away.(phase := Released(true)), {h}, away.base, u), h, [TryExclusive] + rest, end)
  {
    GetsBy(Only(h, away.(phase := Released(true)), {h}, away.base, u), h, TryExclusive,
           Only(h, away.(phase := Guarding, op := Exclusive), {h}, away.base, u), rest, end);
  }

  lemma Guards(h: nat, away: Handle, u: nat, rest: seq<Action>, end: Sys)
    requires Gets(Only(h, away.(phase := Writing, op := Exclusive), {h}, away.base, u), h, rest, end)
    ensures Gets(Only(h, away.(phase := Guarding, op := Exclusive), {h}, away.base, u), h, [Guard] + rest, end)
  {
    GetsBy(Only(h, away.(phase := Guarding, op := Exclusive), {h}, away.base, u), h, Guard,
           Only(h, away.(phase := Writing, op := Exclusive), {h}, away.base, u), rest, end);
  }

  lemma Publishes(h: nat, away: Handle, u: nat, rest: seq<Action>, end: Sys)
    requires Gets(Only(h, away.(phase := Writing, op := Exclusive), {h}, u, u + 1), h, rest, end)
    ensures Gets(Only(h, away.(phase := Writing, op := Exclusive), {h}, away.base, u), h,
                 [Write] + ([Publish] + rest), end)
  {
    var writing := Only(h, away.(phase := Writing, op := Exclusive), {h}, away.base, u);
    GetsBy(writing, h, Publish, writing.(manifest := u, unused := u + 1), rest, end);
    GetsBy(writing, h, Write, writing, [Publish] + rest, end);
  }

  lemma GivesUp(h: nat, away: Handle, u: nat, rest: seq<Action>, end: Sys)
    requires away.op == Unlocked
    requires Gets(Only(h, away.(phase := Downgrading), {h}, u, u + 1), h, rest, end)
    ensures Gets(Only(h, away.(phase := Writing, op := Exclusive), {h}, u, u + 1), h, [GiveUpExclusive] + rest, end)
  {
    GetsBy(Only(h, away.(phase := Writing, op := Exclusive), {h}, u, u + 1), h, GiveUpExclusive,
           Only(h, away.(phase := Downgrading), {h}, u, u + 1), rest, end);
  }

  lemma TakesShared(h: nat, away: Handle, u: nat, rest: seq<Action>, end: Sys)
    requires away.own == Unlocked && away.op == Unlocked
    requires Gets(Only(h, away.(phase := Downgraded, op := Shared), {h}, u, u + 1), h, rest, end)
    ensures Gets(Only(h, away.(phase := Downgrading), {h}, u, u + 1), h, [TakeShared] + rest, end)
  {
    GetsBy(Only(h, away.(phase := Downgrading), {h}, u, u + 1), h, TakeShared,
           Only(h, away.(phase := Downgraded, op := Shared), {h}, u, u + 1), rest, end);
  }

  lemma DropsWriter(h: nat, away: Handle, u: nat, rest: seq<Action>, end: Sys)
    requires Gets(Only(h, away.(phase := Reopening, op := Shared), {}, u, u + 1), h, rest, end)
    ensures Gets(Only(h, away.(phase := Downgraded, op := Shared), {h}, u, u + 1), h, [DropWriter] + rest, end)
  {
    GetsBy(Only(h, away.(phase := Downgraded, op := Shared), {h}, u, u + 1), h, DropWriter,
           Only(h, away.(phase := Reopening, op := Shared), {}, u, u + 1), rest, end);
  }

  lemma Reopens(h: nat, away: Handle, u: nat)
    requires away.own == Unlocked && away.op == Unlocked
    ensures Gets(Only(h, away.(phase := Reopening, op := Shared), {}, u, u + 1), h, [Reload] + ([Install] + []),
                 Only(h, Handle(Idle, Shared, Unlocked, u, u, false), {}, u, u + 1))
  {
    var end := Only(h, Handle(Idle, Shared, Unlocked, u, u, false), {}, u, u + 1);
    var reopened := Only(h, away.(phase := Reopened, op := Shared, next := u), {}, u, u + 1);
    GetsBy(reopened, h, Install, end, [], end);
    GetsBy(Only(h, away.(phase := Reopening, op := Shared), {}, u, u + 1), h, Reload, reopened, [Install] + [], end);
  }
}
