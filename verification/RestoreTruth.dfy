/**
 When a Ready marker can be trusted. A database is reached through a Docker context, the marker and
 the lock are named by that context, and a reset of the configuration forgets it without the markers.
 */
module RestoreTruth {
  import opened Domain
  import opened Hashing
  import opened RestoreMachine

  /** No database is reached by two targets. */
  ghost predicate AliasFree(targets: iset<LocalTarget>) {
    forall t, u | t in targets && u in targets && DatabaseOf(t) == DatabaseOf(u) :: t == u
  }

  ghost predicate Uses(actions: seq<Action>, targets: iset<LocalTarget>) {
    forall a | a in actions && a.Spawn? :: a.attempt.target in targets
  }

  /** A state file that says Ready(d) tells the truth: its database holds exactly the SQL of d. */
  ghost predicate Truthful(sql: DumpId -> Bytes, s: State, target: LocalTarget) {
    var file := s.FileOf(target);
    file.Some? && file.value.status.Ready? ==> s.Content(target) == Some(sql(file.value.dump))
  }

  /** What the database of a working process holds. */
  ghost predicate DataOk(sql: DumpId -> Bytes, s: State, proc: Proc) {
    var meta, content := proc.attempt.meta, s.Content(proc.Target());
    && meta.uncompressedBytes == |sql(meta.dumpId)|
    && (proc.pc.Import? || proc.pc.Compare? ==>
          && proc.pc.imported <= |sql(meta.dumpId)|
          && content == Some(sql(meta.dumpId)[..proc.pc.imported]))
    && (proc.pc.SaveReady? || proc.pc.Return? ==> content == Some(sql(meta.dumpId)))
  }

  ghost predicate Inv(sql: DumpId -> Bytes, targets: iset<LocalTarget>, s: State) {
    && Marked(s)
    && (forall p | p in s.procs :: s.procs[p].Target() in targets && DataOk(sql, s, s.procs[p]))
    && (forall t | s.FileOf(t).Some? :: t in targets)
    && (forall t :: Truthful(sql, s, t))
  }

  /** Only a process that holds its target's lock touches a database, and only its own. */
  lemma TouchesOwnDatabase(sql: DumpId -> Bytes, s: State, a: Action, other: LocalTarget)
    requires Enabled(sql, s, a)
    requires a.Runs() && s.procs[a.pid].Locked() ==> DatabaseOf(other) != DatabaseOf(s.procs[a.pid].Target())
    ensures Next(sql, s, a).Content(other) == s.Content(other)
  {
    hide RestoreStateKey, TargetLock, VersionsAreRestoreCompatible;
  }

  lemma ActorKeeps(sql: DumpId -> Bytes, s: State, a: Action)
    requires Enabled(sql, s, a) && (a.Runs() ==> DataOk(sql, s, s.procs[a.pid]))
    ensures var t := Next(sql, s, a);
            (a.Runs() || a.Spawn?) && a.pid in t.procs ==> DataOk(sql, t, t.procs[a.pid])
  {
    if a.Runs() {
      var all := sql(s.procs[a.pid].attempt.meta.dumpId);
      assert all[..|all|] == all;
    }
    hide RestoreStateKey, TargetLock, VersionsAreRestoreCompatible;
  }

  lemma OthersKeep(sql: DumpId -> Bytes, targets: iset<LocalTarget>, s: State, a: Action, q: Pid)
    requires AliasFree(targets) && Inv(sql, targets, s) && Enabled(sql, s, a)
    requires q in s.procs && a.Spares(q)
    ensures DataOk(sql, Next(sql, s, a), s.procs[q])
  {
    assert DataOk(sql, s, s.procs[q]);
    if s.procs[q].Locked() {
      TouchesOwnDatabase(sql, s, a, s.procs[q].Target());
    }
    hide Next, RestoreStateKey, TargetLock, VersionsAreRestoreCompatible;
  }

  /** The acting restore's own marker. */
  lemma OwnTruthKeeps(sql: DumpId -> Bytes, s: State, a: Action)
    requires Marked(s) && Enabled(sql, s, a) && a.Runs() && s.procs[a.pid].Locked()
    requires DataOk(sql, s, s.procs[a.pid]) && Truthful(sql, s, s.procs[a.pid].Target())
    ensures Truthful(sql, Next(sql, s, a), s.procs[a.pid].Target())
  {
    assert MarkOk(s, s.procs[a.pid]);
    hide RestoreStateKey, TargetLock, VersionsAreRestoreCompatible, Marked;
  }

  lemma TruthKeeps(sql: DumpId -> Bytes, targets: iset<LocalTarget>, s: State, a: Action, target: LocalTarget)
    requires AliasFree(targets) && Inv(sql, targets, s) && Enabled(sql, s, a)
    ensures Truthful(sql, Next(sql, s, a), target)
  {
    assert Truthful(sql, s, target);
    if a.Runs() && s.procs[a.pid].Locked() && s.procs[a.pid].Target() == target {
      OwnTruthKeeps(sql, s, a);
    } else {
      TouchesOwnFile(sql, s, a, target);
      if s.FileOf(target).Some? {
        TouchesOwnDatabase(sql, s, a, target);
      }
    }
    hide Next, RestoreStateKey, TargetLock, VersionsAreRestoreCompatible;
  }

  lemma FilesKeep(sql: DumpId -> Bytes, targets: iset<LocalTarget>, s: State, a: Action, target: LocalTarget)
    requires Inv(sql, targets, s) && Enabled(sql, s, a) && Next(sql, s, a).FileOf(target).Some?
    ensures target in targets
  {
    if !(a.Runs() && s.procs[a.pid].Locked() && s.procs[a.pid].Target() == target) {
      TouchesOwnFile(sql, s, a, target);
    }
    hide Next, RestoreStateKey, TargetLock, VersionsAreRestoreCompatible;
  }

  /** Among targets that do not alias, every step, fault and crash keeps every marker truthful. */
  lemma ActionKeeps(sql: DumpId -> Bytes, targets: iset<LocalTarget>, s: State, a: Action)
    requires AliasFree(targets) && Inv(sql, targets, s) && Enabled(sql, s, a)
    requires a.Spawn? ==> a.attempt.target in targets
    ensures Inv(sql, targets, Next(sql, s, a))
  {
    var t := Next(sql, s, a);
    ActionMarks(sql, s, a);
    ActorKeeps(sql, s, a);
    OnlyActorMoves(sql, s, a);
    forall p | p in t.procs ensures t.procs[p].Target() in targets && DataOk(sql, t, t.procs[p]) {
      if a.Spares(p) {
        OthersKeep(sql, targets, s, a, p);
      } else {
        ActorStaysInTargets(sql, targets, s, a);
      }
    }
    forall u | t.FileOf(u).Some? ensures u in targets {
      FilesKeep(sql, targets, s, a, u);
    }
    forall u ensures Truthful(sql, t, u) {
      TruthKeeps(sql, targets, s, a, u);
    }
    hide Next, Marked, RestoreStateKey, TargetLock, VersionsAreRestoreCompatible, DataOk, Truthful;
  }

  lemma ActorStaysInTargets(sql: DumpId -> Bytes, targets: iset<LocalTarget>, s: State, a: Action)
    requires Enabled(sql, s, a) && (a.Spawn? ==> a.attempt.target in targets)
    requires forall p | p in s.procs :: s.procs[p].Target() in targets
    ensures forall p | p in Next(sql, s, a).procs && !a.Spares(p) :: Next(sql, s, a).procs[p].Target() in targets
  {
    hide RestoreStateKey, TargetLock, VersionsAreRestoreCompatible;
  }

  lemma {:induction false} RunKeeps(sql: DumpId -> Bytes, targets: iset<LocalTarget>, s: State, actions: seq<Action>)
    requires AliasFree(targets) && Inv(sql, targets, s) && Valid(sql, s, actions) && Uses(actions, targets)
    ensures Inv(sql, targets, Run(sql, s, actions))
    decreases |actions|
  {
    if actions == [] {
    } else {
      assert actions[0] in actions && forall a | a in actions[1..] :: a in actions;
      ActionKeeps(sql, targets, s, actions[0]);
      RunKeeps(sql, targets, Next(sql, s, actions[0]), actions[1..]);
    }
  }

  ghost function InContext(context: Field): iset<LocalTarget> {
    iset t: LocalTarget | t.dockerContext == context
  }

  /** Until a reset, every restore the gate lets through is in one Docker context. */
  lemma {:induction false} OneContext(sql: DumpId -> Bytes, s: State, actions: seq<Action>) returns (context: Field)
    requires Valid(sql, s, actions) && Reset !in actions
    ensures s.context.Some? ==> context == s.context.value
    ensures Uses(actions, InContext(context))
    decreases |actions|
  {
    if actions == [] {
      context := if s.context.Some? then s.context.value else [];
    } else {
      assert actions[0] in actions && forall a | a in actions[1..] :: a in actions;
      KeepsContext(sql, s, actions[0]);
      context := OneContext(sql, Next(sql, s, actions[0]), actions[1..]);
      assert forall a | a in actions :: a == actions[0] || a in actions[1..];
    }
  }

  lemma KeepsContext(sql: DumpId -> Bytes, s: State, a: Action)
    requires Enabled(sql, s, a) && !a.Reset?
    ensures s.context.Some? ==> Next(sql, s, a).context == s.context
    ensures a.Spawn? ==> Next(sql, s, a).context == s.context == Some(a.attempt.target.dockerContext)
  {
  }

  /**
   Until the configuration is reset, whatever restores, failures and crashes there were, every
   Ready marker is truthful and every restore that reports success restored its dump.
   */
  lemma TruthfulUntilReset(sql: DumpId -> Bytes, actions: seq<Action>)
    requires Valid(sql, INITIAL, actions) && Reset !in actions
    ensures var s := Run(sql, INITIAL, actions);
            && (forall t :: Truthful(sql, s, t))
            && (forall p | p in s.procs && s.procs[p].pc.Return? :: Restored(sql, s, s.procs[p]))
  {
    var context := OneContext(sql, INITIAL, actions);
    RunKeeps(sql, InContext(context), INITIAL, actions);
  }

  /** The marker of the restore says Ready for its dump and the database is the dump's SQL. */
  ghost predicate Restored(sql: DumpId -> Bytes, s: State, proc: Proc) {
    && s.FileOf(proc.Target()) == Some(StateFile(proc.attempt.meta.dumpId, Ready))
    && s.Content(proc.Target()) == Some(sql(proc.attempt.meta.dumpId))
  }

  /** Some run that only uses these targets leads from nothing to `s`; it may reset the configuration. */
  ghost predicate ReachableWith(sql: DumpId -> Bytes, targets: iset<LocalTarget>, s: State) {
    exists actions :: Valid(sql, INITIAL, actions) && Uses(actions, targets) && Run(sql, INITIAL, actions) == s
  }

  lemma ReachableKeeps(sql: DumpId -> Bytes, targets: iset<LocalTarget>, s: State)
    requires AliasFree(targets) && ReachableWith(sql, targets, s)
    ensures Inv(sql, targets, s)
  {
    var actions :| Valid(sql, INITIAL, actions) && Uses(actions, targets) && Run(sql, INITIAL, actions) == s;
    RunKeeps(sql, targets, INITIAL, actions);
  }

  /** The steps of a restore up to and including the recreation of the database. */
  function Opening(pid: Pid, attempt: Attempt): seq<Action> {
    [Spawn(pid, attempt), Step(pid), Step(pid), Step(pid), Step(pid)]
  }

  /** The rest of a restore nothing disturbs, up to its return. */
  function Closing(pid: Pid, size: nat): seq<Action> {
    [Execute(pid, size), Succeed(pid), Step(pid), Step(pid)]
  }

  ghost predicate One(sql: DumpId -> Bytes, s: State, a: Action, t: State) {
    Enabled(sql, s, a) && Next(sql, s, a) == t
  }

  lemma AtTwice(s: State, pid: Pid, p: Proc, q: Proc)
    ensures s.At(pid, p).At(pid, q) == s.At(pid, q)
    ensures pid !in s.procs ==> s.At(pid, p).End(pid) == s
  {
    assert pid !in s.procs ==> s.At(pid, p).End(pid).procs == s.procs;
  }

  lemma Checks(sql: DumpId -> Bytes, s: State, pid: Pid, attempt: Attempt)
    requires attempt.Admissible()
    ensures One(sql, s.At(pid, Proc(attempt, Check)), Step(pid), s.At(pid, Proc(attempt, Lock)))
  {
    AtTwice(s, pid, Proc(attempt, Check), Proc(attempt, Lock));
  }

  lemma Locks(sql: DumpId -> Bytes, s: State, pid: Pid, attempt: Attempt)
    requires pid !in s.procs && s.LockFree(TargetLock(attempt.target))
    ensures One(sql, s.At(pid, Proc(attempt, Lock)), Step(pid), s.At(pid, Proc(attempt, SaveIncomplete)))
  {
    hide TargetLock;
    AtTwice(s, pid, Proc(attempt, Lock), Proc(attempt, SaveIncomplete));
  }

  lemma Saves(sql: DumpId -> Bytes, s: State, pid: Pid, attempt: Attempt)
    ensures One(sql, s.At(pid, Proc(attempt, SaveIncomplete)), Step(pid),
                s.Save(attempt.target, attempt.meta.dumpId, Incomplete).At(pid, Proc(attempt, Recreate)))
    ensures One(sql, s.At(pid, Proc(attempt, SaveReady)), Step(pid),
                s.Save(attempt.target, attempt.meta.dumpId, Ready).At(pid, Proc(attempt, Return)))
  {
    hide RestoreStateKey;
    AtTwice(s, pid, Proc(attempt, SaveIncomplete), Proc(attempt, Recreate));
    AtTwice(s, pid, Proc(attempt, SaveReady), Proc(attempt, Return));
  }

  lemma Recreates(sql: DumpId -> Bytes, s: State, pid: Pid, attempt: Attempt)
    ensures One(sql, s.At(pid, Proc(attempt, Recreate)), Step(pid),
                s.Hold(attempt.target, Some([])).At(pid, Proc(attempt, Import(0))))
  {
    AtTwice(s, pid, Proc(attempt, Recreate), Proc(attempt, Import(0)));
  }

  lemma Imports(sql: DumpId -> Bytes, s: State, pid: Pid, attempt: Attempt)
    requires pid in s.procs && s.procs[pid] == Proc(attempt, Import(0))
    requires attempt.meta.uncompressedBytes == |sql(attempt.meta.dumpId)|
    ensures var all := sql(attempt.meta.dumpId);
            var held := s.Hold(attempt.target, Some(all));
            && One(sql, s, Execute(pid, |all|), held.At(pid, Proc(attempt, Import(|all|))))
            && One(sql, held.At(pid, Proc(attempt, Import(|all|))), Succeed(pid),
                   held.At(pid, Proc(attempt, Compare(|all|))))
            && One(sql, held.At(pid, Proc(attempt, Compare(|all|))), Step(pid), held.At(pid, Proc(attempt, SaveReady)))
  {
    var all := sql(attempt.meta.dumpId);
    var held := s.Hold(attempt.target, Some(all));
    assert all[..|all|] == all;
    AtTwice(held, pid, Proc(attempt, Import(|all|)), Proc(attempt, Compare(|all|)));
    AtTwice(held, pid, Proc(attempt, Compare(|all|)), Proc(attempt, SaveReady));
  }

  lemma {:induction false} Follows(sql: DumpId -> Bytes, states: seq<State>, actions: seq<Action>)
    requires |states| == |actions| + 1
    requires forall i | 0 <= i < |actions| :: One(sql, states[i], actions[i], states[i + 1])
    ensures Valid(sql, states[0], actions) && Run(sql, states[0], actions) == states[|actions|]
    decreases |actions|
  {
    if actions == [] {
    } else {
      forall i | 0 <= i < |actions[1..]| ensures One(sql, states[1..][i], actions[1..][i], states[1..][i + 1]) {
        assert One(sql, states[i + 1], actions[i + 1], states[i + 2]);
      }
      Follows(sql, states[1..], actions[1..]);
      assert One(sql, states[0], actions[0], states[1]);
    }
  }

  /** A restore that finds its lock free gets to work. */
  lemma Opens(sql: DumpId -> Bytes, s: State, pid: Pid, attempt: Attempt)
    requires pid !in s.procs && attempt.Admissible() && s.LockFree(TargetLock(attempt.target))
    requires attempt.meta.uncompressedBytes == |sql(attempt.meta.dumpId)| && GateAdmits(s.context, attempt.target)
    ensures Valid(sql, s, Opening(pid, attempt))
    ensures Run(sql, s, Opening(pid, attempt)) ==
            s.Save(attempt.target, attempt.meta.dumpId, Incomplete).Hold(attempt.target, Some([]))
             .At(pid, Proc(attempt, Import(0)))
  {
    assert One(sql, s, Spawn(pid, attempt), s.At(pid, Proc(attempt, Check)));
    hide RestoreStateKey, TargetLock, One, Next, Valid, Run;
    var saved := s.Save(attempt.target, attempt.meta.dumpId, Incomplete);
    var done := saved.Hold(attempt.target, Some([])).At(pid, Proc(attempt, Import(0)));
    Checks(sql, s, pid, attempt);
    Locks(sql, s, pid, attempt);
    Saves(sql, s, pid, attempt);
    Recreates(sql, saved, pid, attempt);
    var states := [s, s.At(pid, Proc(attempt, Check)), s.At(pid, Proc(attempt, Lock)),
                   s.At(pid, Proc(attempt, SaveIncomplete)), saved.At(pid, Proc(attempt, Recreate)), done];
    Follows(sql, states, Opening(pid, attempt));
  }

  /** A restore nothing disturbs comes to its return with its dump in place. */
  lemma Closes(sql: DumpId -> Bytes, s: State, pid: Pid, attempt: Attempt)
    requires pid in s.procs && s.procs[pid] == Proc(attempt, Import(0))
    requires attempt.meta.uncompressedBytes == |sql(attempt.meta.dumpId)|
    ensures var all := sql(attempt.meta.dumpId);
            && Valid(sql, s, Closing(pid, |all|))
            && Run(sql, s, Closing(pid, |all|)) ==
               s.Hold(attempt.target, Some(all)).Save(attempt.target, attempt.meta.dumpId, Ready)
                .At(pid, Proc(attempt, Return))
  {
    var all := sql(attempt.meta.dumpId);
    var held := s.Hold(attempt.target, Some(all));
    var saved := held.Save(attempt.target, attempt.meta.dumpId, Ready);
    hide RestoreStateKey, TargetLock, One, Next, Valid, Run;
    Imports(sql, s, pid, attempt);
    Saves(sql, held, pid, attempt);
    var states := [s, held.At(pid, Proc(attempt, Import(|all|))), held.At(pid, Proc(attempt, Compare(|all|))),
                   held.At(pid, Proc(attempt, SaveReady)), saved.At(pid, Proc(attempt, Return))];
    Follows(sql, states, Closing(pid, |all|));
  }

  lemma Adopts(sql: DumpId -> Bytes, s: State, context: Field)
    ensures Valid(sql, s, [Reset, Adopt(context)])
    ensures Run(sql, s, [Reset, Adopt(context)]) == s.(context := Some(context))
  {
    var forgotten, adopted := s.(context := None), s.(context := Some(context));
    assert One(sql, s, Reset, forgotten) && One(sql, forgotten, Adopt(context), adopted);
    Follows(sql, [s, forgotten, adopted], [Reset, Adopt(context)]);
  }

  /** A restore of `dump` that the version check lets through. */
  function Permitted(target: LocalTarget, dump: DumpId, size: u64): (attempt: Attempt)
    ensures attempt.Admissible()
  {
    var version, none := MysqlVersion(8, 4, 0), Digest([]);
    var meta := DumpMetadata(dump, Place("", ""), none, "source", version, version, 1, 0, 0, size, 1, none, none);
    Attempt(target, "target", version, version, meta)
  }

  /** One restore through `t` comes to its return; after a reset another starts through `u`, in its own context. */
  function Betrayal(t: LocalTarget, u: LocalTarget, dump: DumpId, size: u64): seq<Action> {
    Beginning(t, dump, size) + ([Reset, Adopt(u.dockerContext)] + Opening(1, Permitted(u, dump, size)))
  }

  function Beginning(t: LocalTarget, dump: DumpId, size: u64): seq<Action> {
    [Reset, Adopt(t.dockerContext)] + (Opening(0, Permitted(t, dump, size)) + Closing(0, size))
  }

  lemma Begins(sql: DumpId -> Bytes, t: LocalTarget, dump: DumpId) returns (s: State)
    requires |sql(dump)| <= U64_MAX
    ensures var run := Beginning(t, dump, |sql(dump)|);
            Valid(sql, INITIAL, run) && s == Run(sql, INITIAL, run)
    ensures s.procs == map[0 := Proc(Permitted(t, dump, |sql(dump)|), Return)]
    ensures s.FileOf(t) == Some(StateFile(dump, Ready))
  {
    var size := |sql(dump)|;
    var attempt := Permitted(t, dump, size);
    hide RestoreStateKey, TargetLock, Valid, Run;
    Adopts(sql, INITIAL, t.dockerContext);
    var adopted := Run(sql, INITIAL, [Reset, Adopt(t.dockerContext)]);
    Opens(sql, adopted, 0, attempt);
    var begun := Run(sql, adopted, Opening(0, attempt));
    Closes(sql, begun, 0, attempt);
    Append(sql, adopted, Opening(0, attempt), Closing(0, size));
    Append(sql, INITIAL, [Reset, Adopt(t.dockerContext)], Opening(0, attempt) + Closing(0, size));
    s := Run(sql, begun, Closing(0, size));
  }

  /**
   Two targets of one database betray both promises: after a reset and a setup under the other
   context, which leave the old marker behind, a second restore works on the same database under
   another lock and another marker.
   */
  lemma AliasBetrays(sql: DumpId -> Bytes, t: LocalTarget, u: LocalTarget, dump: DumpId)
    requires t != u && DatabaseOf(t) == DatabaseOf(u)
    requires 0 < |sql(dump)| <= U64_MAX
    ensures var run := Betrayal(t, u, dump, |sql(dump)|);
            && Valid(sql, INITIAL, run) && Uses(run, iset{t, u})
            && var s := Run(sql, INITIAL, run);
               && !Truthful(sql, s, t)
               && 0 in s.procs && s.procs[0].pc.Return? && !Restored(sql, s, s.procs[0])
  {
    var size := |sql(dump)|;
    var second := Permitted(u, dump, size);
    var s := Begins(sql, t, dump);
    StateFileIsCoveredByLock(t, u);
    hide Valid, Run, One;
    Adopts(sql, s, u.dockerContext);
    var adopted := Run(sql, s, [Reset, Adopt(u.dockerContext)]);
    Opens(sql, adopted, 1, second);
    Append(sql, s, [Reset, Adopt(u.dockerContext)], Opening(1, second));
    Append(sql, INITIAL, Beginning(t, dump, size), [Reset, Adopt(u.dockerContext)] + Opening(1, second));
    var end := Run(sql, adopted, Opening(1, second));
    OtherFileStays(adopted, t, u, dump);
    assert end.FileOf(t) == Some(StateFile(dump, Ready)) && end.Content(t) == Some([]);
  }

  lemma OtherFileStays(s: State, t: LocalTarget, u: LocalTarget, dump: DumpId)
    requires t != u
    ensures s.Save(u, dump, Incomplete).FileOf(t) == s.FileOf(t)
  {
    StateFileIsCoveredByLock(t, u);
  }

  lemma BetrayalIsReachable(sql: DumpId -> Bytes, targets: iset<LocalTarget>, dump: DumpId)
    returns (s: State, t: LocalTarget)
    requires !AliasFree(targets) && 0 < |sql(dump)| <= U64_MAX
    ensures ReachableWith(sql, targets, s) && t in targets && !Truthful(sql, s, t)
    ensures 0 in s.procs && s.procs[0].pc.Return? && !Restored(sql, s, s.procs[0])
  {
    var first, u :| first in targets && u in targets && DatabaseOf(first) == DatabaseOf(u) && first != u;
    t := first;
    AliasBetrays(sql, t, u, dump);
    var run := Betrayal(t, u, dump, |sql(dump)|);
    s := Run(sql, INITIAL, run);
    assert Uses(run, targets);
  }

  /**
   Over all interleavings, failures, crashes and resets, the durable Ready marker can be trusted
   exactly when no database is reached through two targets.
   */
  lemma ReadyIsTruthfulExactlyWhen(sql: DumpId -> Bytes, targets: iset<LocalTarget>, dump: DumpId)
    requires 0 < |sql(dump)| <= U64_MAX
    ensures AliasFree(targets) <==> forall s, t | ReachableWith(sql, targets, s) :: Truthful(sql, s, t)
  {
    forall s, t | AliasFree(targets) && ReachableWith(sql, targets, s) ensures Truthful(sql, s, t) {
      ReachableKeeps(sql, targets, s);
    }
    if !AliasFree(targets) {
      var s, t := BetrayalIsReachable(sql, targets, dump);
    }
  }

  /** And exactly then a restore that reports success has restored its dump. */
  lemma SuccessMeansRestoredExactlyWhen(sql: DumpId -> Bytes, targets: iset<LocalTarget>, dump: DumpId)
    requires 0 < |sql(dump)| <= U64_MAX
    ensures AliasFree(targets) <==>
            forall s, p | ReachableWith(sql, targets, s) && p in s.procs && s.procs[p].pc.Return? ::
              Restored(sql, s, s.procs[p])
  {
    forall s, p | AliasFree(targets) && ReachableWith(sql, targets, s) && p in s.procs && s.procs[p].pc.Return?
      ensures Restored(sql, s, s.procs[p])
    {
      ReachableKeeps(sql, targets, s);
      assert MarkOk(s, s.procs[p]) && DataOk(sql, s, s.procs[p]);
    }
    if !AliasFree(targets) {
      var s, t := BetrayalIsReachable(sql, targets, dump);
    }
  }
}
