/**
 Restores as a step machine: any number of processes restore dumps into local databases, each
 under the target's lock, and each step may fail, take effect and still fail, or be a crash.
 The target gate lets a restore begin only in the Docker context the configuration names.
 */
module RestoreMachine {
  import opened Domain
  import opened Hashing

  type Pid = nat

  /** A database lives in a container; the Docker context is only a way to reach it. */
  datatype Database = Database(containerId: Field, name: Field)

  function DatabaseOf(target: LocalTarget): Database {
    Database(target.containerId, target.database)
  }

  datatype Status = Incomplete | Ready

  datatype StateFile = StateFile(dump: DumpId, status: Status)

  predicate SameSeries(a: MysqlVersion, b: MysqlVersion) {
    a.major == b.major && a.minor == b.minor
  }

  /** Same-series clients on both sides, the same major version, and no older series. */
  predicate VersionsAreRestoreCompatible(sourceServer: MysqlVersion, sourceClient: MysqlVersion,
                                         targetServer: MysqlVersion, targetClient: MysqlVersion)
  {
    && SameSeries(sourceServer, sourceClient)
    && SameSeries(targetServer, targetClient)
    && sourceServer.major == targetServer.major
    && (|| targetServer.major > sourceServer.major
        || (targetServer.major == sourceServer.major && targetServer.minor >= sourceServer.minor))
  }

  /** A call of `restore`: an authorized target and a validated artifact. */
  datatype Attempt = Attempt(
    target: LocalTarget, serverUuid: string, serverVersion: MysqlVersion, clientVersion: MysqlVersion, meta: Metadata)
  {
    predicate Admissible() {
      && serverUuid != meta.sourceServer
      && VersionsAreRestoreCompatible(meta.sourceVersion, meta.clientVersion, serverVersion, clientVersion)
    }
  }

  /** The next thing to do. `imported` counts the bytes mysql has executed. */
  datatype Pc =
    | Check
    | Lock
    | SaveIncomplete
    | Recreate
    | Import(imported: nat)
    | Compare(imported: nat)
    | SaveReady
    | Return

  datatype Proc = Proc(attempt: Attempt, pc: Pc) {
    predicate Locked() {
      !pc.Check? && !pc.Lock?
    }

    function Target(): LocalTarget {
      attempt.target
    }
  }

  /** `context` is the Docker context of the configuration's client runtime. */
  datatype State = State(
    context: Option<Field>, files: map<Digest, StateFile>, databases: map<Database, Bytes>, procs: map<Pid, Proc>)
  {
    function At(pid: Pid, proc: Proc): State {
      this.(procs := procs[pid := proc])
    }

    function End(pid: Pid): State {
      this.(procs := procs - {pid})
    }

    /** The file lock of a target is held by a process past acquiring it, until it ends. */
    predicate LockFree(key: LockKey) {
      forall p | p in procs && procs[p].Locked() :: TargetLock(procs[p].Target()) != key
    }

    function Save(target: LocalTarget, dump: DumpId, status: Status): State {
      this.(files := files[RestoreStateKey(target) := StateFile(dump, status)])
    }

    function Hold(target: LocalTarget, content: Option<Bytes>): State {
      var database := DatabaseOf(target);
      this.(databases := if content.Some? then databases[database := content.value] else databases - {database})
    }

    /** What the target's state file says. */
    function FileOf(target: LocalTarget): Option<StateFile> {
      if RestoreStateKey(target) in files then Some(files[RestoreStateKey(target)]) else None
    }

    /** What the target's database holds. */
    function Content(target: LocalTarget): Option<Bytes> {
      if DatabaseOf(target) in databases then Some(databases[DatabaseOf(target)]) else None
    }
  }

  const INITIAL := State(None, map[], map[], map[])

  /**
   `Adopt` is a setup or a new profile that fixes the context, `Reset` a reset of the configuration;
   neither touches the state files. `Spawn` is a restore the target gate let through. `Fail` is an
   error before the step's effect, `FailLate` one after it; `Spoil` is a failed executor call that
   leaves the database in any state at all. `Execute` is mysql executing more of the dump, `Succeed`
   its successful exit, wherever it stopped.
   */
  datatype Action =
    | Adopt(context: Field)
    | Reset
    | Spawn(pid: Pid, attempt: Attempt)
    | Crash(pid: Pid)
    | Step(pid: Pid)
    | Fail(pid: Pid)
    | FailLate(pid: Pid)
    | Spoil(pid: Pid, left: Option<Bytes>)
    | Execute(pid: Pid, more: nat)
    | Succeed(pid: Pid)
  {
    /** The action of a process that already runs. */
    predicate Runs() {
      !Adopt? && !Reset? && !Spawn?
    }

    /** The process an action belongs to is not `q`. */
    predicate Spares(q: Pid) {
      Adopt? || Reset? || pid != q
    }
  }

  /** The gate refuses a target when the configuration names no context or another one. */
  predicate GateAdmits(context: Option<Field>, target: LocalTarget) {
    context == Some(target.dockerContext)
  }

  predicate Enabled(sql: DumpId -> Bytes, s: State, a: Action) {
    match a
    case Adopt(context) => s.context.None? || s.context == Some(context)
    case Reset => true
    case Spawn(pid, attempt) =>
      && pid !in s.procs && attempt.meta.uncompressedBytes == |sql(attempt.meta.dumpId)|
      && GateAdmits(s.context, attempt.target)
    case _ =>
      && a.pid in s.procs
      && var pc := s.procs[a.pid].pc;
         match a
         case Step(_) => !pc.Import?
         case FailLate(_) => pc.SaveIncomplete? || pc.SaveReady?
         case Spoil(_, _) => pc.Recreate? || pc.Import?
         case Execute(_, more) => pc.Import? && pc.imported + more <= |sql(s.procs[a.pid].attempt.meta.dumpId)|
         case Succeed(_) => pc.Import?
         case _ => true
  }

  function Next(sql: DumpId -> Bytes, s: State, a: Action): State
    requires Enabled(sql, s, a)
  {
    match a
    case Adopt(context) => s.(context := Some(context))
    case Reset => s.(context := None)
    case Spawn(pid, attempt) => s.At(pid, Proc(attempt, Check))
    case _ => Moved(sql, s, s.procs[a.pid], a)
  }

  function Moved(sql: DumpId -> Bytes, s: State, proc: Proc, a: Action): State
    requires a.Runs() && Enabled(sql, s, a) && s.procs[a.pid] == proc
  {
    var target, dump := proc.Target(), proc.attempt.meta.dumpId;
    match a
    case Step(pid) => Stepped(s, pid, proc)
    case FailLate(pid) => s.Save(target, dump, if proc.pc.SaveReady? then Ready else Incomplete).End(pid)
    case Spoil(pid, left) => s.Hold(target, left).End(pid)
    case Execute(pid, more) =>
      var imported := proc.pc.imported + more;
      s.Hold(target, Some(sql(dump)[..imported])).At(pid, proc.(pc := Import(imported)))
    case Succeed(pid) => s.At(pid, proc.(pc := Compare(proc.pc.imported)))
    case _ => s.End(a.pid)
  }

  function Stepped(s: State, pid: Pid, proc: Proc): State
    requires !proc.pc.Import?
  {
    var target, meta := proc.Target(), proc.attempt.meta;
    match proc.pc
    case Check => if proc.attempt.Admissible() then s.At(pid, proc.(pc := Lock)) else s.End(pid)
    case Lock => if s.LockFree(TargetLock(target)) then s.At(pid, proc.(pc := SaveIncomplete)) else s.End(pid)
    case SaveIncomplete => s.Save(target, meta.dumpId, Incomplete).At(pid, proc.(pc := Recreate))
    case Recreate => s.Hold(target, Some([])).At(pid, proc.(pc := Import(0)))
    case Compare(imported) =>
      if imported == meta.uncompressedBytes then s.At(pid, proc.(pc := SaveReady)) else s.End(pid)
    case SaveReady => s.Save(target, meta.dumpId, Ready).At(pid, proc.(pc := Return))
    case Return => s.End(pid)
  }

  predicate Valid(sql: DumpId -> Bytes, s: State, actions: seq<Action>)
    decreases |actions|
  {
    actions == [] || (Enabled(sql, s, actions[0]) && Valid(sql, Next(sql, s, actions[0]), actions[1..]))
  }

  function Run(sql: DumpId -> Bytes, s: State, actions: seq<Action>): State
    requires Valid(sql, s, actions)
    decreases |actions|
  {
    if actions == [] then s else Run(sql, Next(sql, s, actions[0]), actions[1..])
  }

  /** Some run leads from nothing to `s`. */
  ghost predicate Reachable(sql: DumpId -> Bytes, s: State) {
    exists actions :: Valid(sql, INITIAL, actions) && Run(sql, INITIAL, actions) == s
  }

  /** While a process works on the database its state file says Incomplete; when it returns, Ready. */
  ghost predicate MarkOk(s: State, proc: Proc) {
    var dump := proc.attempt.meta.dumpId;
    && (proc.pc.Recreate? || proc.pc.Import? || proc.pc.Compare? || proc.pc.SaveReady? ==>
          s.FileOf(proc.Target()) == Some(StateFile(dump, Incomplete)))
    && (proc.pc.Return? ==> s.FileOf(proc.Target()) == Some(StateFile(dump, Ready)))
  }

  /** The lock admits one process per target, and the state files say what those processes are doing. */
  ghost predicate Marked(s: State) {
    && (forall p | p in s.procs :: MarkOk(s, s.procs[p]))
    && (forall p, q | p in s.procs && q in s.procs && s.procs[p].Locked() && s.procs[q].Locked()
                      && s.procs[p].Target() == s.procs[q].Target() :: p == q)
  }

  /** Only a process that holds its target's lock touches a state file, and only its own. */
  lemma TouchesOwnFile(sql: DumpId -> Bytes, s: State, a: Action, other: LocalTarget)
    requires Enabled(sql, s, a)
    requires a.Runs() && s.procs[a.pid].Locked() ==> other != s.procs[a.pid].Target()
    ensures Next(sql, s, a).FileOf(other) == s.FileOf(other)
  {
    if a.Runs() {
      StateFileIsCoveredByLock(other, s.procs[a.pid].Target());
    }
    hide RestoreStateKey, TargetLock, VersionsAreRestoreCompatible;
  }

  /** An action moves its own process only, and into the locked region only past a free lock. */
  lemma OnlyActorMoves(sql: DumpId -> Bytes, s: State, a: Action)
    requires Enabled(sql, s, a)
    ensures forall p | p in Next(sql, s, a).procs && a.Spares(p) ::
              p in s.procs && Next(sql, s, a).procs[p] == s.procs[p]
    ensures var t := Next(sql, s, a);
            forall p | p in t.procs && !a.Spares(p) && t.procs[p].Locked() ::
              && a.Runs() && p in s.procs && t.procs[p].Target() == s.procs[p].Target()
              && (s.procs[p].Locked() || s.LockFree(TargetLock(s.procs[p].Target())))
  {
    hide RestoreStateKey, TargetLock, VersionsAreRestoreCompatible, State.LockFree, State.Save, State.Hold;
    if a.Runs() {
      MovesAlone(sql, s, a);
      hide Next;
    }
  }

  lemma MovesAlone(sql: DumpId -> Bytes, s: State, a: Action)
    requires Enabled(sql, s, a) && a.Runs()
    ensures var t := Next(sql, s, a);
            && (forall p | p in t.procs && p != a.pid :: p in s.procs && t.procs[p] == s.procs[p])
            && (a.pid in t.procs && t.procs[a.pid].Locked() ==>
                  && t.procs[a.pid].Target() == s.procs[a.pid].Target()
                  && (s.procs[a.pid].Locked() || s.LockFree(TargetLock(s.procs[a.pid].Target()))))
  {
    hide RestoreStateKey, TargetLock, VersionsAreRestoreCompatible, State.LockFree;
  }

  lemma ActorMarks(sql: DumpId -> Bytes, s: State, a: Action)
    requires Enabled(sql, s, a) && (a.Runs() ==> MarkOk(s, s.procs[a.pid]))
    ensures var t := Next(sql, s, a); a.Runs() && a.pid in t.procs ==> MarkOk(t, t.procs[a.pid])
  {
    hide RestoreStateKey, TargetLock, VersionsAreRestoreCompatible;
  }

  lemma ExclusionKeeps(sql: DumpId -> Bytes, s: State, a: Action, p: Pid, q: Pid)
    requires Marked(s) && Enabled(sql, s, a)
    requires var t := Next(sql, s, a);
             && p in t.procs && q in t.procs && t.procs[p].Locked() && t.procs[q].Locked()
             && t.procs[p].Target() == t.procs[q].Target()
    ensures p == q
  {
    OnlyActorMoves(sql, s, a);
    hide Next, RestoreStateKey, TargetLock, VersionsAreRestoreCompatible, MarkOk;
  }

  /** Whatever targets are in use, every action keeps lock exclusion and the meaning of the state files. */
  lemma ActionMarks(sql: DumpId -> Bytes, s: State, a: Action)
    requires Marked(s) && Enabled(sql, s, a)
    ensures Marked(Next(sql, s, a))
  {
    var t := Next(sql, s, a);
    ActorMarks(sql, s, a);
    OnlyActorMoves(sql, s, a);
    forall p | p in t.procs ensures MarkOk(t, t.procs[p]) {
      if a.Spares(p) {
        OtherMarks(sql, s, a, p);
      }
    }
    forall p, q | p in t.procs && q in t.procs && t.procs[p].Locked() && t.procs[q].Locked()
                  && t.procs[p].Target() == t.procs[q].Target()
      ensures p == q
    {
      ExclusionKeeps(sql, s, a, p, q);
    }
    hide RestoreStateKey, TargetLock, VersionsAreRestoreCompatible, MarkOk;
  }

  lemma OtherMarks(sql: DumpId -> Bytes, s: State, a: Action, q: Pid)
    requires Marked(s) && Enabled(sql, s, a) && q in s.procs && a.Spares(q)
    ensures MarkOk(Next(sql, s, a), s.procs[q])
  {
    assert MarkOk(s, s.procs[q]);
    if s.procs[q].Locked() {
      TouchesOwnFile(sql, s, a, s.procs[q].Target());
    }
    hide Next, RestoreStateKey, TargetLock, VersionsAreRestoreCompatible;
  }

  lemma {:induction false} RunMarks(sql: DumpId -> Bytes, s: State, actions: seq<Action>)
    requires Marked(s) && Valid(sql, s, actions)
    ensures Marked(Run(sql, s, actions))
    decreases |actions|
  {
    if actions == [] {
    } else {
      ActionMarks(sql, s, actions[0]);
      RunMarks(sql, Next(sql, s, actions[0]), actions[1..]);
    }
  }

  lemma ReachableMarks(sql: DumpId -> Bytes, s: State)
    requires Reachable(sql, s)
    ensures Marked(s)
  {
    var actions :| Valid(sql, INITIAL, actions) && Run(sql, INITIAL, actions) == s;
    RunMarks(sql, INITIAL, actions);
  }

  /** Two restores of one target are never both past its lock. */
  lemma RestoresNeverOverlap(sql: DumpId -> Bytes, s: State, p: Pid, q: Pid)
    requires Reachable(sql, s)
    requires p in s.procs && q in s.procs && s.procs[p].Locked() && s.procs[q].Locked()
    requires s.procs[p].Target() == s.procs[q].Target()
    ensures p == q
  {
    ReachableMarks(sql, s);
  }

  /**
   Whatever changes a database is a restore that holds its target's lock and whose state file
   already says Incomplete.
   */
  lemma IncompleteBeforeDestruction(sql: DumpId -> Bytes, s: State, a: Action)
    requires Reachable(sql, s) && Enabled(sql, s, a)
    requires Next(sql, s, a).databases != s.databases
    ensures a.Runs() && s.procs[a.pid].Locked()
    ensures s.FileOf(s.procs[a.pid].Target()) == Some(StateFile(s.procs[a.pid].attempt.meta.dumpId, Incomplete))
  {
    ReachableMarks(sql, s);
    assert a.Runs() && MarkOk(s, s.procs[a.pid]);
  }

  /** A restore about to report success has left Ready for its dump, whatever other targets are in use. */
  lemma SuccessIsMarked(sql: DumpId -> Bytes, s: State, p: Pid)
    requires Reachable(sql, s) && p in s.procs && s.procs[p].pc.Return?
    ensures s.FileOf(s.procs[p].Target()) == Some(StateFile(s.procs[p].attempt.meta.dumpId, Ready))
  {
    ReachableMarks(sql, s);
    assert MarkOk(s, s.procs[p]);
  }

  lemma Cons(sql: DumpId -> Bytes, s: State, a: Action, rest: seq<Action>)
    requires Enabled(sql, s, a) && Valid(sql, Next(sql, s, a), rest)
    ensures Valid(sql, s, [a] + rest) && Run(sql, s, [a] + rest) == Run(sql, Next(sql, s, a), rest)
  {
    assert ([a] + rest)[1..] == rest;
  }

  lemma {:induction false} Append(sql: DumpId -> Bytes, s: State, first: seq<Action>, second: seq<Action>)
    requires Valid(sql, s, first) && Valid(sql, Run(sql, s, first), second)
    ensures Valid(sql, s, first + second) && Run(sql, s, first + second) == Run(sql, Run(sql, s, first), second)
    decreases |first|
  {
    if first == [] {
      assert first + second == second;
    } else {
      Append(sql, Next(sql, s, first[0]), first[1..], second);
      Cons(sql, s, first[0], first[1..] + second);
      assert first + second == [first[0]] + (first[1..] + second);
    }
  }
}
