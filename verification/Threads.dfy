// Several threads of one handle, committing and making durable at once. A
// durable operation gives up write.lock before it opens what it wrote
// (delta_apply.rs:180-189, compact.rs:311-322) and installs it only later
// (update.rs:279-284); in between, another thread can commit.
module Threads {
  import opened Common

  // A snapshot: the manifest it was opened from, and the committed edits that
  // it has, each told apart by a number.
  datatype Snap = Snap(base: nat, edits: set<nat>)

  datatype Phase =
    | Idle
    | Committing(from: Snap, taken: set<nat>) // holds write.lock, has loaded the snapshot and drained the edits
    | Captured(from: Snap)  // holds write.lock, has the snapshot to make durable
    | Published(from: Snap) // replaced the manifest, still holds write.lock
    | Reopening             // gave up write.lock, holds the directory lock shared
    | Reopened(got: Snap)   // read the manifest again, nothing installed yet

  // `current` is the snapshot in memory, `disk` what opening would give.
  // `done` are the edits whose commit has succeeded, `known` all edits ever
  // notified. Manifests are numbered; those from `unused` on are to come.
  datatype Sys = Sys(threads: map<nat, Phase>, writer: Option<nat>, current: Snap, pending: set<nat>, disk: Snap,
                     done: set<nat>, known: set<nat>, unused: nat)

  datatype Action =
    | Notify(edit: nat)
    | Take | Store | Requeue
    | Capture | Publish | Drop | Reopen | Install
    | Fail

  predicate InWindow(p: Phase) { p.Reopening? || p.Reopened? }

  predicate HoldsWriter(p: Phase) { p.Committing? || p.Captured? || p.Published? }

  ghost predicate WindowOpen(s: Sys) { exists t :: t in s.threads && InWindow(s.threads[t]) }

  function Put(s: Sys, t: nat, p: Phase): Sys { s.(threads := s.threads[t := p]) }

  // What thread `t` may do. Publishing takes the exclusive lock, which fails
  // while another operation holds its shared one, and passes the guard, which
  // is taken to refuse every snapshot that is not of the manifest on disk.
  ghost predicate Next(s: Sys, t: nat, a: Action, s2: Sys) {
    && t in s.threads
    && var p := s.threads[t];
       match a
       case Notify(edit) =>
         edit !in s.known && s2 == s.(pending := s.pending + {edit}, known := s.known + {edit})
       case Take =>
         && p.Idle? && s.writer.None? && s.pending != {}
         && s2 == Put(s, t, Committing(s.current, s.pending)).(pending := {}, writer := Some(t))
       case Store =>
         && p.Committing?
         && s2 == Put(s, t, Idle).(current := Snap(p.from.base, p.from.edits + p.taken), done := s.done + p.taken,
                                   writer := None)
       case Requeue =>
         p.Committing? && s2 == Put(s, t, Idle).(pending := s.pending + p.taken, writer := None)
       case Capture =>
         p.Idle? && s.writer.None? && s2 == Put(s, t, Captured(s.current)).(writer := Some(t))
       case Publish =>
         && p.Captured? && !WindowOpen(s) && p.from.base == s.disk.base
         && s2 == Put(s, t, Published(p.from)).(disk := Snap(s.unused, p.from.edits), unused := s.unused + 1)
       case Drop => p.Published? && s2 == Put(s, t, Reopening).(writer := None)
       case Reopen => p.Reopening? && s2 == Put(s, t, Reopened(s.disk))
       case Install => p.Reopened? && s2 == Put(s, t, Idle).(current := p.got)
       case Fail =>
         && (p.Captured? || p.Published? || InWindow(p))
         && s2 == Put(s, t, Idle).(writer := if HoldsWriter(p) then None else s.writer)
  }

  function Start(ids: set<nat>): Sys {
    Sys(map t | t in ids :: Idle, None, Snap(0, {}), {}, Snap(0, {}), {}, {}, 1)
  }

  // ---------------------------------------------------------------- invariant

  ghost predicate PhaseOk(s: Sys, p: Phase) {
    match p
    case Idle => true
    case Committing(from, taken) =>
      && from.base < s.unused && from.edits <= s.done && taken != {} && taken <= s.known && taken !! s.done
      && taken !! s.pending && (WindowOpen(s) ==> from == s.current)
    case Captured(from) =>
      && from.base < s.unused && from.edits <= s.done
      && (WindowOpen(s) ==> from.base != s.disk.base)
      && (from.base == s.disk.base ==> from == s.current)
    case Published(from) => from == s.current && s.disk.edits == from.edits && !WindowOpen(s)
    case Reopening => true
    case Reopened(got) => got == s.disk
  }

  ghost predicate Inv(s: Sys) {
    && (forall t :: t in s.threads ==> PhaseOk(s, s.threads[t]) && (HoldsWriter(s.threads[t]) <==> s.writer == Some(t)))
    && (s.writer.Some? ==> s.writer.value in s.threads)
    && (forall t, u :: t in s.threads && u in s.threads && InWindow(s.threads[t]) && InWindow(s.threads[u]) ==> t == u)
    && s.current.base < s.unused && s.disk.base < s.unused
    && s.current.edits <= s.done && s.disk.edits <= s.done && s.done <= s.known && s.pending <= s.known
    && s.pending !! s.done
    // A window is open from publishing on: memory is of an older manifest.
    && (WindowOpen(s) || (s.writer.Some? && s.threads[s.writer.value].Published?) ==> s.current.base != s.disk.base)
    && (WindowOpen(s) ==> s.disk.edits <= s.current.edits)
  }

  lemma StartInv(ids: set<nat>)
    ensures Inv(Start(ids))
  {
  }

  // Where the window stands after a step.
  lemma WindowAfter(s: Sys, t: nat, a: Action, s2: Sys)
    requires Inv(s) && Next(s, t, a, s2)
    ensures a == Drop ==> WindowOpen(s2)
    ensures a == Install || (a == Fail && InWindow(s.threads[t])) ==> !WindowOpen(s2)
    ensures a != Drop && a != Install && !(a == Fail && InWindow(s.threads[t])) ==> (WindowOpen(s2) <==> WindowOpen(s))
  {
    if a == Drop || a == Reopen {
      assert InWindow(s2.threads[t]);
      if a == Reopen {
        assert InWindow(s.threads[t]);
      }
    } else if a == Install || (a == Fail && InWindow(s.threads[t])) {
      assert forall u :: u in s2.threads && u != t ==> s2.threads[u] == s.threads[u];
    } else {
      assert !InWindow(s.threads[t]) || a.Notify?;
      if WindowOpen(s) {
        var u :| u in s.threads && InWindow(s.threads[u]);
        assert u in s2.threads && InWindow(s2.threads[u]);
      }
      if WindowOpen(s2) {
        var u :| u in s2.threads && InWindow(s2.threads[u]);
        assert u in s.threads && InWindow(s.threads[u]);
      }
    }
  }

  lemma OthersOk(s: Sys, t: nat, a: Action, s2: Sys, u: nat)
    requires Inv(s) && Next(s, t, a, s2) && u in s.threads && (u != t || a.Notify?)
    ensures u in s2.threads && s2.threads[u] == s.threads[u] && PhaseOk(s2, s2.threads[u])
    ensures HoldsWriter(s2.threads[u]) <==> s2.writer == Some(u)
  {
    WindowAfter(s, t, a, s2);
    assert PhaseOk(s, s.threads[u]) && PhaseOk(s, s.threads[t]);
    if a == Install {
      assert InWindow(s.threads[t]) && WindowOpen(s);
    }
  }

  lemma ActorOk(s: Sys, t: nat, a: Action, s2: Sys)
    requires Inv(s) && Next(s, t, a, s2) && !a.Notify?
    ensures t in s2.threads && PhaseOk(s2, s2.threads[t]) && (HoldsWriter(s2.threads[t]) <==> s2.writer == Some(t))
  {
    WindowAfter(s, t, a, s2);
    assert PhaseOk(s, s.threads[t]);
  }

  lemma GlobalOk(s: Sys, t: nat, a: Action, s2: Sys)
    requires Inv(s) && Next(s, t, a, s2)
    ensures s2.current.base < s2.unused && s2.disk.base < s2.unused
    ensures s2.current.edits <= s2.done && s2.disk.edits <= s2.done && s2.done <= s2.known && s2.pending <= s2.known
    ensures s2.pending !! s2.done
    ensures WindowOpen(s2) ==> s2.disk.edits <= s2.current.edits
  {
    WindowAfter(s, t, a, s2);
    assert PhaseOk(s, s.threads[t]);
  }

  lemma StaysOut(s: Sys, t: nat, a: Action, s2: Sys, u: nat)
    requires Inv(s) && Next(s, t, a, s2) && u in s2.threads && InWindow(s2.threads[u])
    ensures u in s.threads && (u != t || a != Drop ==> InWindow(s.threads[u]))
  {
    assert PhaseOk(s, s.threads[t]);
  }

  lemma OneWindow(s: Sys, t: nat, a: Action, s2: Sys, u: nat, v: nat)
    requires Inv(s) && Next(s, t, a, s2)
    requires u in s2.threads && v in s2.threads && InWindow(s2.threads[u]) && InWindow(s2.threads[v])
    ensures u == v
  {
    StaysOut(s, t, a, s2, u);
    StaysOut(s, t, a, s2, v);
    assert PhaseOk(s, s.threads[t]);
  }

  lemma OlderInWindow(s: Sys, t: nat, a: Action, s2: Sys)
    requires Inv(s) && Next(s, t, a, s2)
    ensures WindowOpen(s2)
            || (s2.writer.Some? && s2.writer.value in s2.threads && s2.threads[s2.writer.value].Published?)
            ==> s2.current.base != s2.disk.base
  {
    WindowAfter(s, t, a, s2);
    assert PhaseOk(s, s.threads[t]);
  }

  lemma NextInv(s: Sys, t: nat, a: Action, s2: Sys)
    requires Inv(s) && Next(s, t, a, s2)
    ensures Inv(s2)
  {
    forall u | u in s2.threads
      ensures PhaseOk(s2, s2.threads[u]) && (HoldsWriter(s2.threads[u]) <==> s2.writer == Some(u))
    {
      if u == t && !a.Notify? {
        ActorOk(s, t, a, s2);
      } else {
        OthersOk(s, t, a, s2, u);
      }
    }
    GlobalOk(s, t, a, s2);
    forall u, v | u in s2.threads && v in s2.threads && InWindow(s2.threads[u]) && InWindow(s2.threads[v])
      ensures u == v
    {
      OneWindow(s, t, a, s2, u, v);
    }
    OlderInWindow(s, t, a, s2);
  }

  // ---------------------------------------------------------------- runs

  ghost predicate IsRun(ids: set<nat>, states: seq<Sys>, steps: seq<(nat, Action)>) {
    && |states| == |steps| + 1 && states[0] == Start(ids)
    && forall i {:trigger steps[i]} :: 0 <= i < |steps| ==> Next(states[i], steps[i].0, steps[i].1, states[i + 1])
  }

  lemma {:induction false} RunInv(ids: set<nat>, states: seq<Sys>, steps: seq<(nat, Action)>, i: nat)
    requires IsRun(ids, states, steps) && i <= |steps|
    ensures Inv(states[i])
  {
    if i == 0 {
      StartInv(ids);
    } else {
      RunInv(ids, states, steps, i - 1);
      NextInv(states[i - 1], steps[i - 1].0, steps[i - 1].1, states[i]);
    }
  }

  // ---------------------------------------------------------------- what an install loses

  // The edits that a step commits.
  function StoredBy(s: Sys, t: nat, a: Action): set<nat> {
    if a.Store? && t in s.threads && s.threads[t].Committing? then s.threads[t].taken else {}
  }

  function StoredIn(states: seq<Sys>, steps: seq<(nat, Action)>, i: nat, j: nat): set<nat>
    requires j <= |steps| < |states|
    decreases j
  {
    if j <= i then {} else StoredIn(states, steps, i, j - 1) + StoredBy(states[j - 1], steps[j - 1].0, steps[j - 1].1)
  }

  // Thread `t` stays between giving up write.lock and installing.
  ghost predicate Inside(states: seq<Sys>, t: nat, i: nat, j: nat)
    requires j < |states|
  {
    forall k :: i < k <= j ==> t in states[k].threads && InWindow(states[k].threads[t])
  }

  lemma StepInWindow(s: Sys, t: nat, u: nat, a: Action, s2: Sys)
    requires Inv(s) && Next(s, u, a, s2)
    requires t in s.threads && InWindow(s.threads[t]) && t in s2.threads && InWindow(s2.threads[t])
    ensures s2.disk == s.disk && s2.current.edits == s.current.edits + StoredBy(s, u, a)
    ensures StoredBy(s, u, a) !! s.disk.edits
  {
    assert WindowOpen(s) && PhaseOk(s, s.threads[u]);
  }

  lemma NoneStored(states: seq<Sys>, steps: seq<(nat, Action)>, i: nat)
    requires i <= |steps| < |states|
    ensures StoredIn(states, steps, i, i) == {}
  {
  }

  lemma StoredToo(states: seq<Sys>, steps: seq<(nat, Action)>, i: nat, j: nat)
    requires i < j <= |steps| < |states|
    ensures StoredIn(states, steps, i, j)
         == StoredIn(states, steps, i, j - 1) + StoredBy(states[j - 1], steps[j - 1].0, steps[j - 1].1)
  {
  }

  lemma AtDrop(s: Sys, t: nat, s2: Sys)
    requires Inv(s) && Next(s, t, Drop, s2)
    ensures HasMore(s2, {})
  {
    assert PhaseOk(s, s.threads[t]);
  }

  lemma StoresSome(s: Sys, u: nat, a: Action, s2: Sys)
    requires Inv(s) && Next(s, u, a, s2)
    ensures StoredBy(s, u, a) == {} <==> a != Store
  {
    assert PhaseOk(s, s.threads[u]);
  }

  // Memory has what the disk has and, apart from that, `more`.
  ghost predicate HasMore(s: Sys, more: set<nat>) {
    s.current.edits == s.disk.edits + more && more !! s.disk.edits
  }

  lemma OneMoreInWindow(s: Sys, t: nat, u: nat, a: Action, s2: Sys, more: set<nat>)
    requires Inv(s) && Next(s, u, a, s2) && HasMore(s, more)
    requires t in s.threads && InWindow(s.threads[t]) && t in s2.threads && InWindow(s2.threads[t])
    ensures HasMore(s2, more + StoredBy(s, u, a))
  {
    StepInWindow(s, t, u, a, s2);
  }

  lemma StepOf(ids: set<nat>, states: seq<Sys>, steps: seq<(nat, Action)>, k: nat)
    requires IsRun(ids, states, steps) && k < |steps|
    ensures Inv(states[k]) && Next(states[k], steps[k].0, steps[k].1, states[k + 1])
  {
    RunInv(ids, states, steps, k);
  }

  lemma {:induction false} DuringWindow(ids: set<nat>, states: seq<Sys>, steps: seq<(nat, Action)>, t: nat, i: nat,
                                        j: nat)
    requires IsRun(ids, states, steps) && i < j <= |steps| && steps[i] == (t, Drop) && Inside(states, t, i, j)
    ensures HasMore(states[j], StoredIn(states, steps, i + 1, j))
    decreases j
  {
    StepOf(ids, states, steps, j - 1);
    if j == i + 1 {
      AtDrop(states[i], t, states[j]);
      NoneStored(states, steps, j);
    } else {
      DuringWindow(ids, states, steps, t, i, j - 1);
      var more := StoredIn(states, steps, i + 1, j - 1);
      OneMoreInWindow(states[j - 1], t, steps[j - 1].0, steps[j - 1].1, states[j], more);
      StoredToo(states, steps, i + 1, j);
    }
  }

  // A commit always has edits, so nothing is stored exactly when nobody commits.
  lemma {:induction false} NobodyStores(ids: set<nat>, states: seq<Sys>, steps: seq<(nat, Action)>, i: nat, j: nat)
    requires IsRun(ids, states, steps) && i <= j <= |steps|
    ensures StoredIn(states, steps, i, j) == {} <==> forall k :: i <= k < j ==> steps[k].1 != Store
    decreases j
  {
    if i < j {
      NobodyStores(ids, states, steps, i, j - 1);
      RunInv(ids, states, steps, j - 1);
      StoresSome(states[j - 1], steps[j - 1].0, steps[j - 1].1, states[j]);
      StoredToo(states, steps, i, j);
    }
  }

  // Along every run, an install takes exactly those edits out of memory that
  // other threads committed since the operation gave up write.lock: their
  // commits have succeeded, and they are neither queued nor on disk. It loses
  // nothing exactly when nobody committed in between.
  lemma InstallLosesExactly(ids: set<nat>, states: seq<Sys>, steps: seq<(nat, Action)>, t: nat, i: nat, j: nat)
    requires IsRun(ids, states, steps) && i < j < |steps|
    requires steps[i] == (t, Drop) && steps[j] == (t, Install) && Inside(states, t, i, j)
    ensures var lost := states[j].current.edits - states[j + 1].current.edits;
            && lost == StoredIn(states, steps, i + 1, j)
            && (lost == {} <==> forall k :: i < k < j ==> steps[k].1 != Store)
            && lost <= states[j + 1].done && lost !! states[j + 1].pending && lost !! states[j + 1].disk.edits
  {
    DuringWindow(ids, states, steps, t, i, j);
    NobodyStores(ids, states, steps, i + 1, j);
    RunInv(ids, states, steps, j);
    RunInv(ids, states, steps, j + 1);
    assert Next(states[j], t, Install, states[j + 1]);
    assert PhaseOk(states[j], states[j].threads[t]);
  }

  // ---------------------------------------------------------------- what a commit undoes

  // Thread `u` is in one commit all the while.
  ghost predicate Within(states: seq<Sys>, u: nat, i: nat, j: nat)
    requires j < |states|
  {
    forall k :: i < k <= j ==> u in states[k].threads && states[k].threads[u].Committing?
  }

  ghost predicate NoInstall(steps: seq<(nat, Action)>, i: nat, j: nat)
    requires j <= |steps|
  {
    forall k :: i < k < j ==> steps[k].1 != Install
  }

  lemma StepWhileCommitting(s: Sys, u: nat, v: nat, a: Action, s2: Sys)
    requires Inv(s) && Next(s, v, a, s2) && u in s.threads && s.threads[u].Committing?
    requires u in s2.threads && s2.threads[u].Committing?
    ensures s2.threads[u] == s.threads[u] && s2.disk == s.disk
    ensures a != Install ==> s2.current == s.current
    ensures a == Install ==> s2.current == s.disk && WindowOpen(s) && !WindowOpen(s2)
    ensures WindowOpen(s2) ==> WindowOpen(s)
  {
    WindowAfter(s, v, a, s2);
    assert PhaseOk(s, s.threads[u]) && PhaseOk(s, s.threads[v]);
    if a == Install {
      assert InWindow(s.threads[v]);
    }
  }

  // Loaded while a window was open, a snapshot is of an older manifest.
  lemma {:induction false} WhileCommitting(ids: set<nat>, states: seq<Sys>, steps: seq<(nat, Action)>, u: nat, i: nat,
                                           j: nat)
    requires IsRun(ids, states, steps) && i < j <= |steps| && steps[i] == (u, Take) && Within(states, u, i, j)
    ensures states[j].threads[u].from == states[i].current && states[j].disk == states[i].disk
    ensures WindowOpen(states[j]) || !NoInstall(steps, i, j) ==> states[i].current.base != states[i].disk.base
    ensures states[j].current == if NoInstall(steps, i, j) then states[i].current else states[j].disk
    decreases j
  {
    RunInv(ids, states, steps, j - 1);
    RunInv(ids, states, steps, i);
    assert Next(states[j - 1], steps[j - 1].0, steps[j - 1].1, states[j]);
    if j == i + 1 {
      WindowAfter(states[i], u, Take, states[j]);
    } else {
      WhileCommitting(ids, states, steps, u, i, j - 1);
      StepWhileCommitting(states[j - 1], u, steps[j - 1].0, steps[j - 1].1, states[j]);
      if steps[j - 1].1 == Install {
        assert !NoInstall(steps, i, j);
      }
    }
  }

  // A commit keeps the handle on the manifest it is on exactly when nothing was
  // installed since it loaded its snapshot; otherwise it puts an older base
  // back, and the handle is behind the disk although nothing failed.
  lemma CommitUndoesInstall(ids: set<nat>, states: seq<Sys>, steps: seq<(nat, Action)>, u: nat, i: nat, j: nat)
    requires IsRun(ids, states, steps) && i < j < |steps|
    requires steps[i] == (u, Take) && steps[j] == (u, Store) && Within(states, u, i, j)
    ensures states[j + 1].current.base == states[j].current.base <==> NoInstall(steps, i, j)
    ensures !NoInstall(steps, i, j) ==> states[j + 1].current.base != states[j + 1].disk.base
  {
    WhileCommitting(ids, states, steps, u, i, j);
    assert Next(states[j], u, Store, states[j + 1]);
  }

  // ---------------------------------------------------------------- one at a time

  // No commit and no durable operation starts while another operation is
  // between giving up write.lock and installing.
  ghost predicate Serial(states: seq<Sys>, steps: seq<(nat, Action)>)
    requires |states| == |steps| + 1
  {
    forall k :: 0 <= k < |steps| && (steps[k].1 == Take || steps[k].1 == Capture) ==> !WindowOpen(states[k])
  }

  ghost predicate Whole(s: Sys) {
    && s.done == s.current.edits
    && (WindowOpen(s) ==> s.disk.edits == s.current.edits && s.writer.None?)
    && (forall t :: t in s.threads && s.threads[t].Committing? ==> s.threads[t].from == s.current)
  }

  lemma SerialStep(s: Sys, t: nat, a: Action, s2: Sys)
    requires Inv(s) && Whole(s) && Next(s, t, a, s2) && (a == Take || a == Capture ==> !WindowOpen(s))
    ensures Whole(s2)
  {
    WindowAfter(s, t, a, s2);
    assert PhaseOk(s, s.threads[t]);
    if a == Install {
      assert InWindow(s.threads[t]);
    }
    forall u | u in s2.threads && s2.threads[u].Committing? ensures s2.threads[u].from == s2.current {
      if u != t || a.Notify? {
        assert s2.threads[u] == s.threads[u];
        assert HoldsWriter(s.threads[u]);
      }
    }
  }

  // Then memory has every edit whose commit succeeded, along the whole run.
  lemma {:induction false} SerialLosesNothing(ids: set<nat>, states: seq<Sys>, steps: seq<(nat, Action)>, i: nat)
    requires IsRun(ids, states, steps) && Serial(states, steps) && i <= |steps|
    ensures states[i].done == states[i].current.edits && Whole(states[i])
  {
    if i > 0 {
      SerialLosesNothing(ids, states, steps, i - 1);
      RunInv(ids, states, steps, i - 1);
      SerialStep(states[i - 1], steps[i - 1].0, steps[i - 1].1, states[i]);
    }
  }

  // ---------------------------------------------------------------- two threads

  // What thread 0 publishes before the edit is committed.
  const ONE := Snap(1, {})

  function Both(p: Phase, q: Phase, writer: Option<nat>, current: Snap, pending: set<nat>, disk: Snap, done: set<nat>)
    : Sys
  {
    Sys(map[0 := p, 1 := q], writer, current, pending, disk, done, {7}, if disk == ONE then 2 else 1)
  }

  const BEFORE := Snap(0, {})
  const EDITED := Snap(0, {7})
  const TAKING := Committing(BEFORE, {7})

  // One edit is notified, thread 0 goes as far as giving up write.lock, and
  // thread 1 begins to commit the edit.
  const OPENING: seq<Sys> := [
    Start({0, 1}),
    Both(Idle, Idle, None, BEFORE, {7}, BEFORE, {}),
    Both(Captured(BEFORE), Idle, Some(0), BEFORE, {7}, BEFORE, {}),
    Both(Published(BEFORE), Idle, Some(0), BEFORE, {7}, ONE, {}),
    Both(Reopening, Idle, None, BEFORE, {7}, ONE, {}),
    Both(Reopening, TAKING, Some(1), BEFORE, {}, ONE, {})]

  const OPENING_STEPS: seq<(nat, Action)> := [(0, Notify(7)), (0, Capture), (0, Publish), (0, Drop), (1, Take)]

  lemma StartsIdle()
    ensures Start({0, 1}).threads == map[0 := Idle, 1 := Idle]
  {
  }

  lemma OpeningRun()
    ensures IsRun({0, 1}, OPENING, OPENING_STEPS)
  {
    StartsIdle();
    assert Put(OPENING[1], 0, Captured(BEFORE)).threads == OPENING[2].threads;
    assert Put(OPENING[2], 0, Published(BEFORE)).threads == OPENING[3].threads;
    assert Put(OPENING[3], 0, Reopening).threads == OPENING[4].threads;
    assert Put(OPENING[4], 1, TAKING).threads == OPENING[5].threads;
    assert !WindowOpen(OPENING[2]);
    assert Next(OPENING[0], 0, Notify(7), OPENING[1]);
    assert Next(OPENING[1], 0, Capture, OPENING[2]);
    assert Next(OPENING[2], 0, Publish, OPENING[3]);
    assert Next(OPENING[3], 0, Drop, OPENING[4]);
    assert Next(OPENING[4], 1, Take, OPENING[5]);
  }

  lemma OneMoreStep(ids: set<nat>, states: seq<Sys>, steps: seq<(nat, Action)>, t: nat, a: Action, s2: Sys)
    requires IsRun(ids, states, steps) && Next(states[|steps|], t, a, s2)
    ensures IsRun(ids, states + [s2], steps + [(t, a)])
  {
    forall k | 0 <= k < |steps| + 1
      ensures Next((states + [s2])[k], (steps + [(t, a)])[k].0, (steps + [(t, a)])[k].1, (states + [s2])[k + 1])
    {
      if k < |steps| {
        assert steps[k] == (steps + [(t, a)])[k];
      }
    }
  }

  // The commit of thread 1 has succeeded, and the install of thread 0 takes its
  // edit away for good: not in memory, not queued, not on disk.
  lemma InstallLosesCommit() returns (states: seq<Sys>, steps: seq<(nat, Action)>)
    ensures IsRun({0, 1}, states, steps) && |steps| == 8 && steps[7] == (0, Install)
    ensures 7 in states[7].current.edits
    ensures 7 in states[8].done && 7 !in states[8].current.edits + states[8].pending + states[8].disk.edits
  {
    OpeningRun();
    var s6 := Both(Reopening, Idle, None, EDITED, {}, ONE, {7});
    var s7 := Both(Reopened(ONE), Idle, None, EDITED, {}, ONE, {7});
    var s8 := Both(Idle, Idle, None, ONE, {}, ONE, {7});
    assert Put(OPENING[5], 1, Idle).threads == s6.threads;
    assert Put(s6, 0, Reopened(ONE)).threads == s7.threads;
    assert Put(s7, 0, Idle).threads == s8.threads;
    OneMoreStep({0, 1}, OPENING, OPENING_STEPS, 1, Store, s6);
    OneMoreStep({0, 1}, OPENING + [s6], OPENING_STEPS + [(1, Store)], 0, Reopen, s7);
    states, steps := OPENING + [s6] + [s7], OPENING_STEPS + [(1, Store)] + [(0, Reopen)];
    OneMoreStep({0, 1}, states, steps, 0, Install, s8);
    states, steps := states + [s8], steps + [(0, Install)];
  }

  // Here the commit of thread 1 ends last, and puts the base back that the
  // install had replaced: no operation failed, yet memory is behind the disk.
  lemma CommitRevertsInstall() returns (states: seq<Sys>, steps: seq<(nat, Action)>)
    ensures IsRun({0, 1}, states, steps) && |steps| == 8 && steps[6] == (0, Install) && steps[7] == (1, Store)
    ensures forall k :: 0 <= k < 8 ==> steps[k].1 != Fail
    ensures states[7].current == states[7].disk && states[8].current.base != states[8].disk.base
  {
    OpeningRun();
    var s6 := Both(Reopened(ONE), TAKING, Some(1), BEFORE, {}, ONE, {});
    var s7 := Both(Idle, TAKING, Some(1), ONE, {}, ONE, {});
    var s8 := Both(Idle, Idle, None, EDITED, {}, ONE, {7});
    assert Put(OPENING[5], 0, Reopened(ONE)).threads == s6.threads;
    assert Put(s6, 0, Idle).threads == s7.threads;
    assert Put(s7, 1, Idle).threads == s8.threads;
    OneMoreStep({0, 1}, OPENING, OPENING_STEPS, 0, Reopen, s6);
    OneMoreStep({0, 1}, OPENING + [s6], OPENING_STEPS + [(0, Reopen)], 0, Install, s7);
    states, steps := OPENING + [s6] + [s7], OPENING_STEPS + [(0, Reopen)] + [(0, Install)];
    OneMoreStep({0, 1}, states, steps, 1, Store, s8);
    states, steps := states + [s8], steps + [(1, Store)];
  }
}
