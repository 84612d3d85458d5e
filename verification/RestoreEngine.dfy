/** One call of `restore`, statement by statement, as a run of the restore machine. */
module RestoreEngine {
  import opened Domain
  import opened Hashing
  import opened RestoreMachine
  import Credentials

  datatype RestoreError =
    | RuntimeContextMissing
    | ContextIdentityChanged
    | SourceTargetCollision
    | VersionMismatch
    | LockBusy
    | StateFailed
    | ExecutionFailed
    | ImportedSizeMismatch

  /** What the state store and mysql do during the call; a failing mysql call leaves any database behind. */
  datatype Outside = Outside(
    incomplete: Credentials.Fault, recreated: bool, afterRecreate: Option<Bytes>,
    executed: nat, imported: bool, afterImport: Option<Bytes>, ready: Credentials.Fault)

  class RestoreHost {
    ghost const sql: DumpId -> Bytes
    var state: State
    ghost var history: seq<Action>

    /** The state is where the history leads. */
    ghost predicate Valid()
      reads this
    {
      RestoreMachine.Valid(sql, INITIAL, history) && Run(sql, INITIAL, history) == state
    }

    constructor (ghost sql: DumpId -> Bytes)
      ensures this.sql == sql && Valid() && state == INITIAL
    {
      this.sql, state, history := sql, INITIAL, [];
    }

    /** One enabled step of the machine, taken with the content mysql executes, if any. */
    method Perform(ghost a: Action, next: State)
      requires Valid() && Enabled(sql, state, a) && next == Next(sql, state, a)
      modifies this
      ensures Valid() && state == next && history == old(history) + [a]
    {
      assert RestoreMachine.Valid(sql, Next(sql, state, a), []);
      Cons(sql, state, a, []);
      Append(sql, INITIAL, history, [a]);
      assert [a] + [] == [a];
      state, history := next, history + [a];
    }

    /**
     A setup, as far as restores notice it: the first one fixes the context, and a later one may not change it.
     `verified` says that nothing else stops it.
     */
    method Configure(context: Field, verified: bool) returns (accepted: bool)
      requires Valid()
      modifies this
      ensures Valid() && (accepted <==> verified && old(state).context in {None, Some(context)})
      ensures state == if accepted then old(state).(context := Some(context)) else old(state)
      ensures accepted ==> forall target: LocalTarget ::
                GateAdmits(state.context, target) <==> target.dockerContext == context
    {
      if (state.context.Some? && state.context.value != context) || !verified {
        return false;
      }
      Perform(Adopt(context), state.(context := Some(context)));
      return true;
    }

    /** A reset starts a new configuration; the state files and the databases stay as they are. */
    method ResetConfiguration()
      requires Valid()
      modifies this
      ensures Valid() && state == old(state).(context := None)
      ensures forall target: LocalTarget :: !GateAdmits(state.context, target)
    {
      Perform(Reset, state.(context := None));
    }

    /** Fails before or after a durable save. */
    method SaveState(pid: Pid, proc: Proc, dump: DumpId, status: Status, fault: Credentials.Fault) returns (saved: bool)
      requires Valid() && pid in state.procs && state.procs[pid] == proc && dump == proc.attempt.meta.dumpId
      requires (status.Incomplete? && proc.pc.SaveIncomplete?) || (status.Ready? && proc.pc.SaveReady?)
      modifies this
      ensures Valid() && saved == fault.NoFault?
      ensures state.databases == old(state).databases && state.context == old(state).context
      ensures state.files == if fault.Early? then old(state).files
                else old(state).Save(proc.Target(), dump, status).files
      ensures state.procs == if saved
                then old(state).procs[pid := proc.(pc := if status.Ready? then Return else Recreate)]
                  else old(state).procs - {pid}
    {
      hide RestoreStateKey;
      match fault {
        case Early => Perform(Fail(pid), state.End(pid));
        case Late => Perform(FailLate(pid), state.Save(proc.Target(), dump, status).End(pid));
        case NoFault =>
          Perform(Step(pid), state.Save(proc.Target(), dump, status)
             .At(pid, proc.(pc := if status.Ready? then Return else Recreate)));
      }
      return fault.NoFault?;
    }

    /** The target's file and database are as given, and nothing else differs from `before`. */
    ghost predicate Left(before: State, target: LocalTarget, dump: DumpId, status: Option<Status>,
                         database: Option<Bytes>)
      reads this
    {
      && state.context == before.context
      && state.procs == before.procs
      && state.files == (if status.Some? then before.Save(target, dump, status.value) else before).files
      && state.databases == before.Hold(target, database).databases
    }

    /**
     Recreation and import: mysql executes a part of the dump and exits, or fails and leaves the database in
     any state.
     */
    method Load(pid: Pid, attempt: Attempt, content: Bytes, o: Outside) returns (imported: Option<nat>)
      requires Valid() && pid in state.procs && state.procs[pid] == Proc(attempt, Recreate)
               && content == sql(attempt.meta.dumpId)
      modifies this
      ensures Valid() && state.files == old(state).files && state.context == old(state).context
      ensures imported == if o.recreated && o.imported then Some(Executed(o, content)) else None
      ensures imported.Some? ==>
                && state.databases == old(state).Hold(attempt.target, Some(content[..imported.value])).databases
                && state.procs == old(state).procs[pid := Proc(attempt, Compare(imported.value))]
      ensures imported.None? ==>
                && state.procs == old(state).procs - {pid}
                && state.databases == old(state)
                    .Hold(attempt.target, if o.recreated then o.afterImport else o.afterRecreate).databases
    {
      hide RestoreStateKey, TargetLock, Run, RestoreMachine.Valid, RestoreHost.Valid;
      if !o.recreated {
        Perform(Spoil(pid, o.afterRecreate), state.Hold(attempt.target, o.afterRecreate).End(pid));
        return None;
      }
      Perform(Step(pid), state.Hold(attempt.target, Some([])).At(pid, Proc(attempt, Import(0))));
      imported := ImportDump(pid, attempt, content, o);
    }

    method ImportDump(pid: Pid, attempt: Attempt, content: Bytes, o: Outside) returns (imported: Option<nat>)
      requires Valid() && pid in state.procs && state.procs[pid] == Proc(attempt, Import(0))
      requires content == sql(attempt.meta.dumpId)
      modifies this
      ensures Valid() && state.files == old(state).files && state.context == old(state).context
      ensures imported == if o.imported then Some(Executed(o, content)) else None
      ensures imported.Some? ==>
                && state.databases == old(state).Hold(attempt.target, Some(content[..imported.value])).databases
                && state.procs == old(state).procs[pid := Proc(attempt, Compare(imported.value))]
      ensures imported.None? ==>
                && state.procs == old(state).procs - {pid}
                && state.databases == old(state).Hold(attempt.target, o.afterImport).databases
    {
      hide RestoreStateKey, TargetLock, Run, RestoreMachine.Valid, RestoreHost.Valid;
      if !o.imported {
        Perform(Spoil(pid, o.afterImport), state.Hold(attempt.target, o.afterImport).End(pid));
        return None;
      }
      var n := Executed(o, content);
      Perform(Execute(pid, n), state.Hold(attempt.target, Some(content[..n])).At(pid, Proc(attempt, Import(n))));
      Perform(Succeed(pid), state.At(pid, Proc(attempt, Compare(n))));
      return Some(n);
    }

    function Executed(o: Outside, content: Bytes): (n: nat)
      ensures n <= |content|
    {
      if o.executed <= |content| then o.executed else |content|
    }

    /** The size check and the second save. */
    method Conclude(pid: Pid, attempt: Attempt, content: Bytes, imported: nat, o: Outside)
      returns (r: Result<nat, RestoreError>)
      requires Valid() && pid in state.procs && state.procs[pid] == Proc(attempt, Compare(imported))
      requires content == sql(attempt.meta.dumpId) && |content| == attempt.meta.uncompressedBytes
      modifies this
      ensures Valid() && state.context == old(state).context
      ensures state.databases == old(state).databases && state.procs == old(state).procs - {pid}
      ensures r == if imported != |content| then Err(ImportedSizeMismatch) else if o.ready.NoFault? then Ok(imported)
                else Err(StateFailed)
      ensures state.files == if imported != |content| || o.ready.Early? then old(state).files
                             else old(state).Save(attempt.target, attempt.meta.dumpId, Ready).files
    {
      hide RestoreStateKey, TargetLock;
      if imported != attempt.meta.uncompressedBytes {
        Perform(Step(pid), state.End(pid));
        return Err(ImportedSizeMismatch);
      }
      Perform(Step(pid), state.At(pid, Proc(attempt, SaveReady)));
      var saved := SaveState(pid, Proc(attempt, SaveReady), attempt.meta.dumpId, Ready, o.ready);
      if !saved {
        return Err(StateFailed);
      }
      Perform(Step(pid), state.End(pid));
      return Ok(imported);
    }

    /** Everything under the target's lock, which every way out releases. */
    method RestoreLocked(pid: Pid, attempt: Attempt, content: Bytes, o: Outside) returns (r: Result<nat, RestoreError>)
      requires Valid() && pid in state.procs && state.procs[pid] == Proc(attempt, SaveIncomplete)
      requires content == sql(attempt.meta.dumpId) && |content| == attempt.meta.uncompressedBytes
      modifies this
      ensures Valid() && (r.Ok? || r.error.StateFailed? || r.error.ExecutionFailed? || r.error.ImportedSizeMismatch?)
      ensures Ended(old(state).End(pid), attempt, content, o, r)
    {
      hide RestoreStateKey, TargetLock, Run, RestoreMachine.Valid, RestoreHost.Valid;
      var saved := SaveState(pid, Proc(attempt, SaveIncomplete), attempt.meta.dumpId, Incomplete, o.incomplete);
      if !saved {
        assert state.databases == old(state).Hold(attempt.target, old(state).Content(attempt.target)).databases;
        return Err(StateFailed);
      }
      ghost var begun := state;
      var imported := Load(pid, attempt, content, o);
      if imported.None? {
        return Err(ExecutionFailed);
      }
      assert content[..|content|] == content;
      r := Conclude(pid, attempt, content, imported.value, o);
    }

    /** The state a restore that got the lock ends in. */
    ghost predicate Ended(before: State, attempt: Attempt, content: Bytes, o: Outside, r: Result<nat, RestoreError>)
      reads this
    {
      var target, dump := attempt.target, attempt.meta.dumpId;
      match r
      case Ok(bytes) => bytes == |content| && Left(before, target, dump, Some(Ready), Some(content))
      case Err(ExecutionFailed) => Left(before, target, dump, Some(Incomplete), if o.recreated then o.afterImport
        else o.afterRecreate)
      case Err(ImportedSizeMismatch) =>
        o.executed < |content| && Left(before, target, dump, Some(Incomplete), Some(content[..o.executed]))
      case Err(StateFailed) =>
        if !o.incomplete.NoFault?
        then Left(before, target, dump, if o.incomplete.Late? then Some(Incomplete) else None, before.Content(target))
        else Left(before, target, dump, Some(if o.ready.Late? then Ready else Incomplete), Some(content))
      case Err(_) => false
    }

    /** What a restore the gate let through answers and leaves. */
    ghost predicate Restores(before: State, attempt: Attempt, content: Bytes, o: Outside, r: Result<nat, RestoreError>)
      reads this
    {
      if attempt.serverUuid == attempt.meta.sourceServer then r == Err(SourceTargetCollision) && state == before
      else if !attempt.Admissible() then r == Err(VersionMismatch) && state == before
      else if !before.LockFree(TargetLock(attempt.target)) then r == Err(LockBusy) && state == before
      else Ended(before, attempt, content, o, r)
    }

    /**
     A refused restore changes nothing. One whose first save was not durable leaves the old state
     file and the old database; any later failure leaves Incomplete, or Ready only over a fully
     restored database; a success leaves Ready over exactly the SQL of the dump.
     */
    method Restore(pid: Pid, attempt: Attempt, content: Bytes, o: Outside) returns (r: Result<nat, RestoreError>)
      requires Valid() && pid !in state.procs && GateAdmits(state.context, attempt.target)
      requires content == sql(attempt.meta.dumpId) && |content| == attempt.meta.uncompressedBytes
      modifies this
      ensures Valid() && Restores(old(state), attempt, content, o, r)
    {
      hide RestoreStateKey, TargetLock;
      ghost var before := state;
      Perform(Spawn(pid, attempt), state.At(pid, Proc(attempt, Check)));
      if !attempt.Admissible() {
        Perform(Step(pid), state.End(pid));
        assert state.procs == before.procs;
        return Err(if attempt.serverUuid == attempt.meta.sourceServer then SourceTargetCollision else VersionMismatch);
      }
      Perform(Step(pid), state.At(pid, Proc(attempt, Lock)));
      assert state.procs == before.procs[pid := Proc(attempt, Lock)];
      SameLocks(before, state, pid, TargetLock(attempt.target));
      if !state.LockFree(TargetLock(attempt.target)) {
        Perform(Step(pid), state.End(pid));
        assert state.procs == before.procs;
        return Err(LockBusy);
      }
      Perform(Step(pid), state.At(pid, Proc(attempt, SaveIncomplete)));
      assert state.End(pid).procs == before.procs;
      assert state.End(pid) == before;
      r := RestoreLocked(pid, attempt, content, o);
    }

    /** A restore of a configured target: the gate first, and nothing happens when it refuses. */
    method RestoreTarget(pid: Pid, attempt: Attempt, content: Bytes, o: Outside) returns (r: Result<nat, RestoreError>)
      requires Valid() && pid !in state.procs
      requires content == sql(attempt.meta.dumpId) && |content| == attempt.meta.uncompressedBytes
      modifies this
      ensures Valid()
      ensures r == Err(RuntimeContextMissing) <==> old(state).context.None?
      ensures r == Err(ContextIdentityChanged) <==>
                old(state).context.Some? && old(state).context.value != attempt.target.dockerContext
      ensures !GateAdmits(old(state).context, attempt.target) ==> state == old(state)
      ensures GateAdmits(old(state).context, attempt.target) ==> Restores(old(state), attempt, content, o, r)
    {
      if state.context.None? {
        return Err(RuntimeContextMissing);
      }
      if state.context.value != attempt.target.dockerContext {
        return Err(ContextIdentityChanged);
      }
      r := Restore(pid, attempt, content, o);
    }
  }

  lemma SameLocks(before: State, after: State, pid: Pid, key: LockKey)
    requires pid !in before.procs && pid in after.procs && !after.procs[pid].Locked()
    requires after.procs - {pid} == before.procs
    ensures after.LockFree(key) <==> before.LockFree(key)
  {
    hide TargetLock;
    assert forall p | p in before.procs :: p in after.procs && after.procs[p] == before.procs[p] by {
      assert forall p | p in before.procs :: p in after.procs - {pid};
    }
    assert forall p | p in after.procs && p != pid :: p in after.procs - {pid};
  }
}
