/** The promises of the artifact protocol, over every run from an empty cache. */
module ArtifactTheorems {
  import opened Domain
  import opened ArtifactProtocol
  import opened ArtifactSafety

  lemma StepKeeps(codec: Codec, s: State, a: Action)
    requires Inv(codec, s) && Enabled(codec, s, a)
    ensures Inv(codec, Next(s, a))
  {
    match a
    case Spawn(_, _) => SpawnKeeps(codec, s, a);
    case Crash(pid) => Ended(codec, s, pid);
    case Fail(_) => FailKeeps(codec, s, a);
    case Append(_, _) => AppendKeeps(codec, s, a);
    case Finish(_, _, _) => FinishKeeps(codec, s, a);
    case Submit(_, _) => SubmitKeeps(codec, s, a);
    case Unlink(_, _) => UnlinkKeeps(codec, s, a);
    case Step(pid, _) =>
      match s.procs[pid]
      case Writer(_, _, _) => WriterKeeps(codec, s, a);
      case Remover(_, _) => RemoverKeeps(codec, s, a);
      case Reader(_, _, _) => ReaderKeeps(codec, s, a);
  }

  lemma {:induction false} RunKeeps(codec: Codec, s: State, actions: seq<Action>)
    requires Inv(codec, s) && Valid(codec, s, actions)
    ensures Inv(codec, Run(s, actions))
    decreases |actions|
  {
    if actions == [] {
    } else {
      StepKeeps(codec, s, actions[0]);
      RunKeeps(codec, Next(s, actions[0]), actions[1..]);
    }
  }

  ghost predicate Reachable(codec: Codec, s: State) {
    exists actions :: Valid(codec, INITIAL, actions) && Run(INITIAL, actions) == s
  }

  lemma ReachableKeeps(codec: Codec, s: State)
    requires Reachable(codec, s)
    ensures Inv(codec, s)
  {
    var actions :| Valid(codec, INITIAL, actions) && Run(INITIAL, actions) == s;
    RunKeeps(codec, INITIAL, actions);
  }

  /**
   Whatever crashed or failed on the way: a directory under a complete name has its dump, its
   metadata names that very place and ID, and the recorded sizes and digests are those of the
   compression that wrote the dump.
   */
  lemma PublishedIsComplete(codec: Codec, s: State, path: Path)
    requires Reachable(codec, s)
    requires path in s.disk.fs && path.entry.Complete?
    ensures s.disk.Has(path) && Published(codec, path, s.disk.Look(path))
  {
    ReachableKeeps(codec, s);
    assert PathOk(codec, s.disk, path);
  }

  /**
   A reader that took its lease and then found the metadata keeps that artifact: through every
   continuation in which the reader itself does nothing, its path names the same directory with
   the same files.
   */
  lemma ConfirmedLeaseKeepsArtifact(codec: Codec, s: State, future: seq<Action>, pid: Pid)
    requires Reachable(codec, s) && Valid(codec, s, future)
    requires pid in s.procs && s.procs[pid].Reader? && s.procs[pid].l.Using?
    requires forall a | a in future :: a.pid != pid
    ensures pid in Run(s, future).procs && Run(s, future).procs[pid] == s.procs[pid]
    ensures StillThere(s.disk, s.procs[pid]) && StillThere(Run(s, future).disk, s.procs[pid])
  {
    ReachableKeeps(codec, s);
    RunKeeps(codec, s, future);
    Untouched(codec, s, future, pid);
    assert Alone(codec, s.disk, s.procs[pid]) && Alone(codec, Run(s, future).disk, Run(s, future).procs[pid]);
  }

  /** The reader's path names the directory it confirmed, with the files it then had. */
  predicate StillThere(disk: Disk, reader: Proc)
    requires reader.Reader? && reader.l.Using?
  {
    disk.Has(reader.Target()) && disk.fs[reader.Target()] == reader.l.dir && disk.Look(reader.Target()) == reader.l.seen
  }

  /** Nobody acts for another process. */
  lemma {:induction false} Untouched(codec: Codec, s: State, future: seq<Action>, pid: Pid)
    requires Valid(codec, s, future) && pid in s.procs
    requires forall a | a in future :: a.pid != pid
    ensures pid in Run(s, future).procs && Run(s, future).procs[pid] == s.procs[pid]
    decreases |future|
  {
    if future == [] {
    } else {
      assert future[0] in future && forall a | a in future[1..] :: a in future;
      Untouched(codec, Next(s, future[0]), future[1..], pid);
    }
  }

  /**
   The lease alone promises nothing: wherever an artifact is published and unlocked, a reader that
   opens the lock file, loses the race to a remover and locks afterwards holds a shared lease on a
   name that no longer exists.
   */
  lemma LeaseAloneIsNotEnough(codec: Codec, s: State, path: Path, reader: Pid, remover: Pid, tag: nat, other: nat)
    requires s.disk.Has(path) && path.entry.Complete? && s.disk.Look(path).lock.Some?
    requires forall pid | pid in s.procs :: !s.procs[pid].Holds(s.disk.Look(path).lock.value)
    requires reader !in s.procs && remover !in s.procs && reader != remover
    requires Unused(s.disk, tag) && Unused(s.disk, other) && tag != other
    ensures var race := Race(path, reader, remover, tag, other);
            && Valid(codec, s, race)
            && reader in Run(s, race).procs
            && Run(s, race).procs[reader].HoldsShared(s.disk.Look(path).lock.value)
            && path !in Run(s, race).disk.fs
  {
    var s1, s2, s3, states, last := RaceStates(codec, s, path, reader, remover, tag, other);
    hide Next, Enabled, One, Run, Valid, Unused;
    Follows(codec, [s, s1, s2, s3, states[0], states[1], states[2], states[3], last],
            Race(path, reader, remover, tag, other));
  }

  lemma RaceStates(codec: Codec, s: State, path: Path, reader: Pid, remover: Pid, tag: nat, other: nat)
    returns (s1: State, s2: State, s3: State, states: seq<State>, last: State)
    requires s.disk.Has(path) && path.entry.Complete? && s.disk.Look(path).lock.Some?
    requires forall pid | pid in s.procs :: !s.procs[pid].Holds(s.disk.Look(path).lock.value)
    requires reader !in s.procs && remover !in s.procs && reader != remover
    requires Unused(s.disk, tag) && Unused(s.disk, other) && tag != other
    ensures |states| == 4
    ensures One(codec, s, Spawn(reader, Reader(path.place, path.entry.id, OpenLease)), s1)
    ensures One(codec, s1, Step(reader, tag), s2) && One(codec, s2, Spawn(remover, Remover(path, OpenTarget)), s3)
    ensures One(codec, s3, Step(remover, tag), states[0]) && One(codec, states[0], Step(remover, tag), states[1])
    ensures One(codec, states[1], Step(remover, tag), states[2])
            && One(codec, states[2], Step(remover, other), states[3])
    ensures One(codec, states[3], Step(reader, other), last)
    ensures reader in last.procs && last.procs[reader].HoldsShared(s.disk.Look(path).lock.value)
    ensures path !in last.disk.fs
  {
    var f := s.disk.Look(path).lock.value;
    var r0 := Reader(path.place, path.entry.id, OpenLease);
    s1 := s.At(reader, r0);
    s2 := s1.At(reader, r0.(l := TakeShared(f)));
    s3 := s2.At(remover, Remover(path, OpenTarget));
    hide Next, Enabled, One, Run, Valid, Unused;
    Spawns(codec, s, reader, r0);
    ReaderOpens(codec, s1, reader, path, tag);
    Spawns(codec, s2, remover, Remover(path, OpenTarget));
    states := RemoverWins(codec, s3, remover, path, tag, other);
    last := ReaderLocks(codec, states[3], reader, path, f, other);
  }

  lemma Spawns(codec: Codec, s: State, pid: Pid, proc: Proc)
    requires pid !in s.procs && !proc.Writer? && Initial(s, proc)
    ensures One(codec, s, Spawn(pid, proc), s.At(pid, proc))
  {
  }

  lemma ReaderOpens(codec: Codec, s: State, pid: Pid, path: Path, tag: nat)
    requires s.disk.Has(path) && path.entry.Complete? && s.disk.Look(path).lock.Some? && Unused(s.disk, tag)
    requires pid in s.procs && s.procs[pid] == Reader(path.place, path.entry.id, OpenLease)
    ensures One(codec, s, Step(pid, tag),
                s.At(pid, Reader(path.place, path.entry.id, TakeShared(s.disk.Look(path).lock.value))))
  {
  }

  lemma ReaderLocks(codec: Codec, s: State, pid: Pid, path: Path, f: Inode, tag: nat) returns (last: State)
    requires path.entry.Complete? && Unused(s.disk, tag)
    requires pid in s.procs && s.procs[pid] == Reader(path.place, path.entry.id, TakeShared(f))
    requires s.FreeForShared(pid, f)
    ensures One(codec, s, Step(pid, tag), last) && last == s.At(pid, Reader(path.place, path.entry.id, Confirm(f)))
  {
    last := s.At(pid, Reader(path.place, path.entry.id, Confirm(f)));
  }

  /** A remover alone at an unlocked name isolates it in four calls. */
  lemma RemoverWins(codec: Codec, s: State, pid: Pid, path: Path, tag: nat, other: nat) returns (states: seq<State>)
    requires s.disk.Has(path) && s.disk.Look(path).lock.Some?
    requires pid in s.procs && s.procs[pid] == Remover(path, OpenTarget)
    requires forall p | p in s.procs :: !s.procs[p].Holds(s.disk.Look(path).lock.value)
    requires Unused(s.disk, tag) && Unused(s.disk, other) && tag != other
    ensures |states| == 4
    ensures One(codec, s, Step(pid, tag), states[0]) && One(codec, states[0], Step(pid, tag), states[1])
    ensures One(codec, states[1], Step(pid, tag), states[2]) && One(codec, states[2], Step(pid, other), states[3])
    ensures var isolated := Path(path.place, Isolated(path.entry, tag));
            states[2] == s.On(s.disk.Move(path, isolated))
             .At(pid, Remover(path, Unlock(s.disk.Look(path).lock.value, isolated)))
    ensures path !in states[3].disk.fs && Unused(states[3].disk, other)
    ensures pid in states[3].procs && states[3].procs[pid].Fd().None?
    ensures forall p | p != pid :: p in states[3].procs <==> p in s.procs
    ensures forall p | p in s.procs && p != pid :: states[3].procs[p] == s.procs[p]
  {
    var f := s.disk.Look(path).lock.value;
    var isolated := Path(path.place, Isolated(path.entry, tag));
    var s1 := s.At(pid, Remover(path, TakeExclusive(f)));
    var s2 := s1.At(pid, Remover(path, RenameTarget(f)));
    var s3 := s2.On(s.disk.Move(path, isolated)).At(pid, Remover(path, Unlock(f, isolated)));
    var s4 := s3.At(pid, Remover(path, RemoveIsolated(isolated)));
    assert Unused(s3.disk, other);
    states := [s1, s2, s3, s4];
  }

  ghost predicate One(codec: Codec, s: State, a: Action, t: State) {
    Enabled(codec, s, a) && Next(s, a) == t
  }

  lemma {:induction false} Follows(codec: Codec, states: seq<State>, actions: seq<Action>)
    requires |states| == |actions| + 1
    requires forall i | 0 <= i < |actions| :: One(codec, states[i], actions[i], states[i + 1])
    ensures Valid(codec, states[0], actions) && Run(states[0], actions) == states[|actions|]
    decreases |actions|
  {
    if actions == [] {
    } else {
      forall i | 0 <= i < |actions[1..]| ensures One(codec, states[1..][i], actions[1..][i], states[1..][i + 1]) {
        assert One(codec, states[i + 1], actions[i + 1], states[i + 2]);
      }
      Follows(codec, states[1..], actions[1..]);
      assert One(codec, states[0], actions[0], states[1]);
    }
  }

  lemma {:induction false} RunConcat(codec: Codec, s: State, first: seq<Action>, second: seq<Action>)
    ensures Run(s, first + second) == Run(Run(s, first), second)
    ensures Valid(codec, s, first) && Valid(codec, Run(s, first), second) ==> Valid(codec, s, first + second)
    decreases |first|
  {
    if first == [] {
      assert first + second == second;
    } else {
      RunConcat(codec, Next(s, first[0]), first[1..], second);
      assert (first + second)[0] == first[0] && (first + second)[1..] == first[1..] + second;
    }
  }

  /** The reader opens, the remover opens, locks, renames and unlocks, and then the reader locks. */
  function Race(path: Path, reader: Pid, remover: Pid, tag: nat, other: nat): seq<Action>
    requires path.entry.Complete?
  {
    [ Spawn(reader, Reader(path.place, path.entry.id, OpenLease)), Step(reader, tag),
      Spawn(remover, Remover(path, OpenTarget)), Step(remover, tag), Step(remover, tag), Step(remover, tag),
      Step(remover, other), Step(reader, other)]
  }

  /**
   A stage whose writer holds its lock belongs to the writer: no other process's action removes,
   renames or alters the directory.
   */
  lemma HeldStageIsUntouched(codec: Codec, s: State, a: Action, writer: Pid)
    requires Reachable(codec, s) && Enabled(codec, s, a) && a.pid != writer
    requires writer in s.procs && HoldsStage(s.disk, s.procs[writer])
    ensures HoldsStage(Next(s, a).disk, s.procs[writer])
    ensures Next(s, a).disk.Look(s.procs[writer].Target()) == s.disk.Look(s.procs[writer].Target())
    ensures Next(s, a).disk.fs[s.procs[writer].Target()] == s.disk.fs[s.procs[writer].Target()]
  {
    ReachableKeeps(codec, s);
    var me, stage := s.procs[writer], s.procs[writer].Target();
    if !a.Spawn? {
      var other := s.procs[a.pid];
      assert Both(s.disk, me, other) && Alone(codec, s.disk, other) && Alone(codec, s.disk, me);
      assert PurgeOk(s.disk, other, stage);
      assert other.Writer? && other.Target() in s.disk.fs ==> PathsDiffer(s.disk, other.Target(), stage);
      match other
      case Writer(_, _, _) => OtherWriterLeaves(s, a, me);
      case Remover(_, _) => RemoverLeaves(codec, s, a, me);
      case Reader(_, _, _) => ReaderLeaves(codec, s, a, me);
    }
  }

  predicate HoldsStage(disk: Disk, writer: Proc) {
    writer.Staging() && writer.Fd().Some? && writer.HoldsExclusive(writer.Fd().value) && disk.Has(writer.Target())
  }

  ghost predicate Leaves(before: Disk, after: Disk, path: Path)
    requires before.Has(path)
  {
    after.Has(path) && after.fs[path] == before.fs[path] && after.Look(path) == before.Look(path)
  }

  lemma OtherWriterLeaves(s: State, a: Action, me: Proc)
    requires a.pid in s.procs && s.procs[a.pid].Writer? && !a.Spawn?
    requires HoldsStage(s.disk, me) && s.procs[a.pid].id != me.id
    requires a.Step? ==> Unused(s.disk, a.unused)
    requires PurgeOk(s.disk, s.procs[a.pid], me.Target())
    requires s.procs[a.pid].Target() in s.disk.fs ==> PathsDiffer(s.disk, s.procs[a.pid].Target(), me.Target())
    requires s.procs[a.pid].w.Compress? ==>
               s.procs[a.pid].Target() in s.disk.fs && s.disk.fs[s.procs[a.pid].Target()] == s.procs[a.pid].w.dir
    ensures Leaves(s.disk, Next(s, a).disk, me.Target())
  {
  }

  lemma RemoverLeaves(codec: Codec, s: State, a: Action, me: Proc)
    requires a.pid in s.procs && s.procs[a.pid].Remover? && !a.Spawn?
    requires HoldsStage(s.disk, me) && Alone(codec, s.disk, me) && Alone(codec, s.disk, s.procs[a.pid])
             && Both(s.disk, me, s.procs[a.pid])
    requires a.Step? ==> Unused(s.disk, a.unused)
    requires PurgeOk(s.disk, s.procs[a.pid], me.Target())
    ensures Leaves(s.disk, Next(s, a).disk, me.Target())
  {
  }

  lemma ReaderLeaves(codec: Codec, s: State, a: Action, me: Proc)
    requires a.pid in s.procs && s.procs[a.pid].Reader? && !a.Spawn?
    requires HoldsStage(s.disk, me) && Alone(codec, s.disk, me)
    requires a.Step? ==> Unused(s.disk, a.unused)
    ensures Leaves(s.disk, Next(s, a).disk, me.Target())
  {
  }

  /**
   A directory isolated twice, as a crash inside a sweep leaves it, is never touched again: no
   sweep or prune targets such a name, so with no process at work on it now it stays for ever.
   */
  lemma {:induction false} TwiceIsolatedIsStranded(codec: Codec, s: State, future: seq<Action>, path: Path)
    requires Inv(codec, s) && Valid(codec, s, future)
    requires path in s.disk.fs && !Removable(path.entry)
    requires forall pid | pid in s.procs :: Idle(s.procs[pid], path)
    ensures path in Run(s, future).disk.fs && Run(s, future).disk.fs[path] == s.disk.fs[path]
    decreases |future|
  {
    if future == [] {
    } else {
      StrandedStep(codec, s, future[0], path);
      StepKeeps(codec, s, future[0]);
      TwiceIsolatedIsStranded(codec, Next(s, future[0]), future[1..], path);
    }
  }

  /** The process neither targets `path` nor is about to remove it. */
  predicate Idle(proc: Proc, path: Path) {
    && proc.Target() != path
    && (proc.Remover? && (proc.r.Unlock? || proc.r.RemoveIsolated? || proc.r.PurgeIsolated?) ==>
         proc.r.isolated != path)
  }

  lemma StrandedActor(codec: Codec, s: State, a: Action, path: Path)
    requires a.pid in s.procs && !a.Spawn? && Idle(s.procs[a.pid], path)
    requires path in s.disk.fs && path.entry.Isolated?
    requires a.Step? ==> Unused(s.disk, a.unused)
    ensures path in Next(s, a).disk.fs && Next(s, a).disk.fs[path] == s.disk.fs[path]
    ensures a.pid in Next(s, a).procs ==> Idle(Next(s, a).procs[a.pid], path)
  {
  }

  /** An action changes no other process. */
  lemma OnlyActorMoves(s: State, a: Action)
    requires a.pid in s.procs && !a.Spawn?
    ensures forall pid | pid in Next(s, a).procs && pid != a.pid ::
              pid in s.procs && Next(s, a).procs[pid] == s.procs[pid]
  {
  }

  lemma StrandedStep(codec: Codec, s: State, a: Action, path: Path)
    requires Inv(codec, s) && Enabled(codec, s, a)
    requires path in s.disk.fs && !Removable(path.entry)
    requires forall pid | pid in s.procs :: Idle(s.procs[pid], path)
    ensures path in Next(s, a).disk.fs && Next(s, a).disk.fs[path] == s.disk.fs[path]
    ensures forall pid | pid in Next(s, a).procs :: Idle(Next(s, a).procs[pid], path)
  {
    if !a.Spawn? {
      StrandedActor(codec, s, a, path);
      OnlyActorMoves(s, a);
    }
  }

  /** A removal that isolates `path` and dies before it unlocks or deletes anything. */
  function IsolateAndCrash(pid: Pid, path: Path, tag: nat): seq<Action> {
    [Spawn(pid, Remover(path, OpenTarget)), Step(pid, tag), Step(pid, tag), Step(pid, tag), Crash(pid)]
  }

  /** A crash inside a removal leaves the directory under its isolated name, unlocked and with nobody at work. */
  lemma CrashLeavesIsolated(codec: Codec, s: State, pid: Pid, path: Path, tag: nat, other: nat)
    requires s.disk.Has(path) && s.disk.Look(path).lock.Some? && Removable(path.entry)
    requires forall p | p in s.procs :: !s.procs[p].Holds(s.disk.Look(path).lock.value)
    requires pid !in s.procs && Unused(s.disk, tag) && Unused(s.disk, other) && tag != other
    ensures Valid(codec, s, IsolateAndCrash(pid, path, tag))
    ensures Run(s, IsolateAndCrash(pid, path, tag)) ==
              s.On(s.disk.Move(path, Path(path.place, Isolated(path.entry, tag))))
  {
    var begun := s.At(pid, Remover(path, OpenTarget));
    var end := s.On(s.disk.Move(path, Path(path.place, Isolated(path.entry, tag))));
    Spawns(codec, s, pid, Remover(path, OpenTarget));
    var states := RemoverWins(codec, begun, pid, path, tag, other);
    assert states[2].End(pid).procs == s.procs;
    assert One(codec, states[2], Crash(pid), end);
    hide Next, Enabled, One, Run, Valid, Unused;
    Follows(codec, [s, begun, states[0], states[1], states[2], end], IsolateAndCrash(pid, path, tag));
  }

  /** A writer that crashes as soon as it has locked its stage. */
  function StageAndCrash(place: Place, id: DumpId): seq<Action> {
    [Spawn(0, Writer(place, id, MakeDir)), Step(0, 0), Step(0, 1), Step(0, 2), Crash(0)]
  }

  /** The cache with nothing but that stage, its lock file and its writer. */
  function OneStage(place: Place, id: DumpId, locked: bool, w: Option<WriterPc>): State {
    var dir := Dir(if locked then Some(1) else None, None, None, None);
    var inodes := if locked then {1} else {};
    State(Disk(map[Path(place, Staged(id)) := 0], map[0 := dir], inodes, map[id := place]),
          if w.Some? then map[0 := Writer(place, id, w.value)] else map[])
  }

  lemma StageBegins(codec: Codec, place: Place, id: DumpId) returns (s: State)
    ensures One(codec, INITIAL, Spawn(0, Writer(place, id, MakeDir)), s)
    ensures One(codec, s, Step(0, 0), OneStage(place, id, false, Some(OpenLock)))
  {
    s := State(Disk(map[], map[], {}, map[id := place]), map[0 := Writer(place, id, MakeDir)]);
  }

  lemma StageOpens(codec: Codec, place: Place, id: DumpId)
    ensures One(codec, OneStage(place, id, false, Some(OpenLock)), Step(0, 1),
                OneStage(place, id, true, Some(TakeLock(1))))
  {
  }

  lemma StageLocks(codec: Codec, place: Place, id: DumpId)
    ensures One(codec, OneStage(place, id, true, Some(TakeLock(1))), Step(0, 2),
                OneStage(place, id, true, Some(MakeDump(1))))
    ensures One(codec, OneStage(place, id, true, Some(MakeDump(1))), Crash(0), OneStage(place, id, true, None))
  {
  }

  lemma CrashLeavesStage(codec: Codec, place: Place, id: DumpId)
    ensures Valid(codec, INITIAL, StageAndCrash(place, id))
    ensures Run(INITIAL, StageAndCrash(place, id)) == OneStage(place, id, true, None)
  {
    hide Next, Enabled, One, Run, Valid, OneStage;
    var s := StageBegins(codec, place, id);
    StageOpens(codec, place, id);
    StageLocks(codec, place, id);
    Follows(codec,
            [INITIAL, s, OneStage(place, id, false, Some(OpenLock)), OneStage(place, id, true, Some(TakeLock(1))),
                    OneStage(place, id, true, Some(MakeDump(1))), OneStage(place, id, true, None)],
            StageAndCrash(place, id));
  }

  /** A writer crashes, a sweep of its stage crashes, and a sweep of what that left crashes. */
  function ThreeCrashes(place: Place, id: DumpId): seq<Action> {
    var stage := Path(place, Staged(id));
    StageAndCrash(place, id)
    + (IsolateAndCrash(0, stage, 2) + IsolateAndCrash(0, Path(place, Isolated(Staged(id), 2)), 3))
  }

  /**
   Nothing finishes every interrupted deletion: three crashes leave a directory isolated twice, with
   no process left, and whatever happens from then on it stays.
   */
  lemma CrashedSweepStrands(codec: Codec, place: Place, id: DumpId, future: seq<Action>)
    requires Valid(codec, Run(INITIAL, ThreeCrashes(place, id)), future)
    ensures Valid(codec, INITIAL, ThreeCrashes(place, id)) && Run(INITIAL, ThreeCrashes(place, id)).procs == map[]
    ensures var twice := Path(place, Isolated(Isolated(Staged(id), 2), 3));
            && !Removable(twice.entry)
            && twice in Run(INITIAL, ThreeCrashes(place, id)).disk.fs
            && twice in Run(Run(INITIAL, ThreeCrashes(place, id)), future).disk.fs
  {
    var stage, once := Path(place, Staged(id)), Path(place, Isolated(Staged(id), 2));
    var twice := Path(place, Isolated(Isolated(Staged(id), 2), 3));
    var s, u := CrashesTwice(codec, place, id);
    hide Next, Enabled, One, Valid, Run, Unused, OneStage;
    CrashLeavesStage(codec, place, id);
    RunConcat(codec, s, IsolateAndCrash(0, stage, 2), IsolateAndCrash(0, once, 3));
    RunConcat(codec, INITIAL, StageAndCrash(place, id), IsolateAndCrash(0, stage, 2) + IsolateAndCrash(0, once, 3));
    InitialKeeps(codec);
    RunKeeps(codec, INITIAL, ThreeCrashes(place, id));
    TwiceIsolatedIsStranded(codec, u, future, twice);
  }

  lemma CrashesTwice(codec: Codec, place: Place, id: DumpId) returns (s: State, u: State)
    ensures s == OneStage(place, id, true, None)
    ensures var first := IsolateAndCrash(0, Path(place, Staged(id)), 2);
            var second := IsolateAndCrash(0, Path(place, Isolated(Staged(id), 2)), 3);
            && Valid(codec, s, first) && Valid(codec, Run(s, first), second) && Run(Run(s, first), second) == u
    ensures u.procs == map[] && Path(place, Isolated(Isolated(Staged(id), 2), 3)) in u.disk.fs
  {
    var stage, once := Path(place, Staged(id)), Path(place, Isolated(Staged(id), 2));
    var twice := Path(place, Isolated(Isolated(Staged(id), 2), 3));
    s := OneStage(place, id, true, None);
    var t := s.On(s.disk.Move(stage, once));
    u := t.On(t.disk.Move(once, twice));
    assert Unused(t.disk, 3) && Unused(t.disk, 4);
    hide Next, Enabled, One, Valid, Run, Unused;
    CrashLeavesIsolated(codec, s, 0, stage, 2, 3);
    CrashLeavesIsolated(codec, t, 0, once, 3, 4);
  }

  lemma InitialKeeps(codec: Codec)
    ensures Inv(codec, INITIAL)
  {
  }
}
