/** What every run of the artifact protocol keeps. */
module ArtifactSafety {
  import opened Domain
  import opened ArtifactProtocol

  function BaseId(entry: Entry): DumpId {
    match entry
    case Staged(id) => id
    case Complete(id) => id
    case Isolated(original, _) => BaseId(original)
  }

  /** A published directory is complete, and its metadata describes the compression that filled it. */
  ghost predicate Published(codec: Codec, path: Path, contents: Dir)
    requires path.entry.Complete?
  {
    && contents.lock.Some?
    && contents.dump.Some?
    && contents.metadata.Some?
    && contents.metadata.value.dumpId == path.entry.id
    && contents.metadata.value.place == path.place
    && Records(codec, contents.metadata.value, contents.metadata.value.sqlSha256.preimage, contents.dump.value)
  }

  ghost predicate PathOk(codec: Codec, disk: Disk, path: Path)
    requires path in disk.fs
  {
    && disk.fs[path] in disk.dirs
    && BaseId(path.entry) in disk.home
    && disk.home[BaseId(path.entry)] == path.place
    && (path.entry.Complete? ==> Published(codec, path, disk.dirs[disk.fs[path]]))
  }

  ghost predicate PathsDiffer(disk: Disk, p: Path, q: Path)
    requires p in disk.fs && q in disk.fs
  {
    disk.fs[p] == disk.fs[q] ==> p == q
  }

  /**
   Nothing named by a live path is being purged: purges work on isolated directories and on a failed writer's
   own stage.
   */
  ghost predicate PurgeOk(disk: Disk, proc: Proc, path: Path)
    requires path in disk.fs
  {
    proc.Purging() == Some(disk.fs[path]) ==>
      path.entry.Isolated? || (proc.Writer? && path == proc.Target())
  }

  /** A descriptor opened through a complete name is the lock of the directory still under that name. */
  ghost predicate DescriptorOk(disk: Disk, proc: Proc) {
    && (proc.Fd().Some? ==> proc.Fd().value in disk.inodes && BaseId(proc.Target().entry) in disk.home)
    && (proc.Fd().Some? && proc.Target() in disk.fs && disk.fs[proc.Target()] in disk.dirs
        && (proc.Target().entry.Complete? || proc.Staging()) ==>
          disk.dirs[disk.fs[proc.Target()]].lock == proc.Fd())
  }

  ghost predicate WriterOk(codec: Codec, disk: Disk, proc: Proc)
    requires proc.Writer?
  {
    var stage := proc.Target();
    && proc.id in disk.home && disk.home[proc.id] == proc.place
    && (proc.Staging() ==> Path(proc.place, Complete(proc.id)) !in disk.fs)
    && (proc.w.MakeDir? ==> stage !in disk.fs)
    && (proc.Staging() && !proc.Filling() && disk.Has(stage) ==> disk.Look(stage).draft.None?)
    && (proc.Filling() ==> disk.Has(stage) && disk.Look(stage).dump.Some?)
    && (proc.Filling() ==>
          var contents := disk.dirs[disk.fs[stage]];
          match proc.w
          case Compress(_, dir) => disk.fs[stage] == dir && contents.draft.None?
          case CheckMetadata(_, metrics) =>
            && contents.draft.None?
            && (|contents.dump.value| == metrics.compressedBytes ==>
                  Describes(codec, metrics, metrics.inputSha256.preimage, contents.dump.value))
          case CheckSize(_, meta) =>
            && contents.draft.None?
            && (|contents.dump.value| == meta.compressedBytes ==> Submittable(codec, proc, meta, contents))
          case WriteDraft(_, meta) => contents.draft.None? && Submittable(codec, proc, meta, contents)
          case FinalizeDraft(_, meta) => contents.draft == Some(meta) && Submittable(codec, proc, meta, contents)
          case RenameStage(_, meta) => contents.metadata == Some(meta) && Submittable(codec, proc, meta, contents)
          case _ => true)
  }

  ghost predicate Submittable(codec: Codec, proc: Proc, meta: Metadata, contents: Dir)
    requires proc.Writer?
  {
    && contents.dump.Some?
    && meta.dumpId == proc.id
    && meta.place == proc.place
    && Records(codec, meta, meta.sqlSha256.preimage, contents.dump.value)
  }

  /** The reader that confirmed its artifact after taking the lease still has exactly that artifact. */
  ghost predicate ReaderOk(disk: Disk, proc: Proc)
    requires proc.Reader?
  {
    proc.l.Using? ==>
      && proc.Target() in disk.fs
      && disk.fs[proc.Target()] == proc.l.dir
      && proc.l.dir in disk.dirs
      && disk.dirs[proc.l.dir] == proc.l.seen
      && proc.l.seen.metadata.Some?
  }

  ghost predicate RemoverOk(disk: Disk, proc: Proc)
    requires proc.Remover?
  {
    match proc.r
    case Unlock(_, isolated) => isolated.entry.Isolated?
    case RemoveIsolated(isolated) => isolated.entry.Isolated?
    case PurgeIsolated(isolated, _) => isolated.entry.Isolated?
    case _ => true
  }

  ghost predicate ProcOk(codec: Codec, disk: Disk, proc: Proc) {
    && DescriptorOk(disk, proc)
    && (proc.Purging().Some? ==> proc.Purging().value in disk.dirs)
    && match proc
       case Writer(_, _, _) => WriterOk(codec, disk, proc)
       case Remover(_, _) => RemoverOk(disk, proc)
       case Reader(_, _, _) => ReaderOk(disk, proc)
  }

  ghost predicate PairOk(disk: Disk, a: Proc, b: Proc) {
    && (a.Writer? && b.Writer? ==> a.id != b.id)
    && (a.Fd().Some? && a.HoldsExclusive(a.Fd().value) ==> !b.Holds(a.Fd().value))
    // A stage that may still be published keeps the lock file every remover of it opened.
    && (a.Staging() && b.Remover? && b.Fd().Some? && b.victim == a.Target() && a.Target() in disk.fs
        && disk.fs[a.Target()] in disk.dirs ==>
          disk.dirs[disk.fs[a.Target()]].lock == b.Fd())
    // A name is opened only once it exists.
    && (a.Writer? && a.w.MakeDir? && b.Fd().Some? ==> b.Target() != a.Target())
    && (a.Staging() && b.Fd().Some? ==> b.Target() != Path(a.place, Complete(a.id)))
  }

  ghost predicate DiskOk(codec: Codec, disk: Disk) {
    && (forall path | path in disk.fs :: PathOk(codec, disk, path))
    && (forall p, q | p in disk.fs && q in disk.fs :: PathsDiffer(disk, p, q))
    && (forall dir | dir in disk.dirs :: disk.dirs[dir].lock.Some? ==> disk.dirs[dir].lock.value in disk.inodes)
  }

  /** One process against the disk. */
  ghost predicate Alone(codec: Codec, disk: Disk, proc: Proc) {
    && ProcOk(codec, disk, proc)
    && forall path | path in disk.fs :: PurgeOk(disk, proc, path)
  }

  ghost predicate Both(disk: Disk, a: Proc, b: Proc) {
    PairOk(disk, a, b) && PairOk(disk, b, a)
  }

  ghost predicate Inv(codec: Codec, s: State) {
    && DiskOk(codec, s.disk)
    && (forall pid | pid in s.procs :: Alone(codec, s.disk, s.procs[pid]))
    && (forall a, b | a in s.procs && b in s.procs && a != b :: Both(s.disk, s.procs[a], s.procs[b]))
  }

  /** How one process's action reaches the invariant: the disk, itself, each other process, and each pair. */
  lemma Assemble(codec: Codec, s: State, t: State, pid: Pid)
    requires Inv(codec, s)
    requires t.procs.Keys <= s.procs.Keys + {pid}
    requires forall other | other in t.procs && other != pid :: t.procs[other] == s.procs[other]
    requires DiskOk(codec, t.disk)
    requires pid in t.procs ==> Alone(codec, t.disk, t.procs[pid])
    requires forall other | other in s.procs && other != pid :: Alone(codec, t.disk, s.procs[other])
    requires forall other | other in s.procs && other != pid && pid in t.procs ::
               Both(t.disk, t.procs[pid], s.procs[other])
    requires forall a, b | a in s.procs && b in s.procs && a != pid && b != pid && a != b ::
               Both(t.disk, s.procs[a], s.procs[b])
    ensures Inv(codec, t)
  {
    hide Alone, PairOk, DiskOk;
    forall a, b | a in t.procs && b in t.procs && a != b ensures Both(t.disk, t.procs[a], t.procs[b]) {
    }
  }

  lemma Ended(codec: Codec, s: State, pid: Pid)
    requires Inv(codec, s)
    ensures Inv(codec, s.End(pid))
  {
    hide Alone, Both, DiskOk;
    Assemble(codec, s, s.End(pid), pid);
  }

  lemma Moved(codec: Codec, s: State, pid: Pid, proc: Proc)
    requires Inv(codec, s) && pid in s.procs
    requires Alone(codec, s.disk, proc)
    requires forall other | other in s.procs && other != pid :: Both(s.disk, proc, s.procs[other])
    ensures Inv(codec, s.At(pid, proc))
  {
    hide Alone, Both, DiskOk;
    Assemble(codec, s, s.At(pid, proc), pid);
  }

  /** A dump ID is begun once: whatever exists was begun before. */
  lemma BeginOther(codec: Codec, disk: Disk, born: Proc, other: Proc)
    requires DiskOk(codec, disk) && born.Writer? && born.w.MakeDir? && born.id !in disk.home
    requires Alone(codec, disk, other)
    ensures Alone(codec, disk.(home := disk.home[born.id := born.place]), other)
    ensures Both(disk.(home := disk.home[born.id := born.place]), born, other)
  {
  }

  lemma BeginKeeps(codec: Codec, s: State, pid: Pid, born: Proc)
    requires Inv(codec, s) && pid !in s.procs && born.Writer? && Initial(s, born)
    ensures Inv(codec, s.At(pid, born).On(s.disk.(home := s.disk.home[born.id := born.place])))
  {
    var disk := s.disk.(home := s.disk.home[born.id := born.place]);
    assert DiskOk(codec, disk);
    forall other | other in s.procs ensures Alone(codec, disk, s.procs[other]) && Both(disk, born, s.procs[other]) {
      BeginOther(codec, s.disk, born, s.procs[other]);
    }
    forall a, b | a in s.procs && b in s.procs && a != b ensures Both(disk, s.procs[a], s.procs[b]) {
      assert Both(s.disk, s.procs[a], s.procs[b]);
    }
    assert forall path | path in disk.fs :: PathOk(codec, s.disk, path);
    assert Alone(codec, disk, born);
    Assemble(codec, s, s.At(pid, born).On(disk), pid);
  }

  lemma SpawnKeeps(codec: Codec, s: State, a: Action)
    requires Inv(codec, s) && Enabled(codec, s, a) && a.Spawn?
    ensures Inv(codec, Next(s, a))
  {
    if a.proc.Writer? {
      BeginKeeps(codec, s, a.pid, a.proc);
    } else {
      Assemble(codec, s, Next(s, a), a.pid);
    }
  }

  /** A writer that gives up keeps at most its lock and no claim to its stage. */
  lemma GivesUp(disk: Disk, me: Proc, proc: Proc, other: Proc)
    requires Both(disk, me, other)
    requires me.Writer? && proc.Writer? && proc.id == me.id && proc.place == me.place && me.Staging()
    requires proc.w.RemoveStage? || (proc.w.Discard? && proc.Fd() == me.Fd() && me.HoldsExclusive(proc.w.fd))
    ensures Both(disk, proc, other)
  {
  }

  lemma FailKeeps(codec: Codec, s: State, a: Action)
    requires Inv(codec, s) && Enabled(codec, s, a) && a.Fail?
    ensures Inv(codec, Next(s, a))
  {
    hide Alone, Both, DiskOk;
    var me, t := s.procs[a.pid], Next(s, a);
    if a.pid in t.procs {
      var proc := t.procs[a.pid];
      forall other | other in s.procs && other != a.pid ensures Both(s.disk, proc, s.procs[other]) {
        GivesUp(s.disk, me, proc, s.procs[other]);
      }
      StopsStaging(codec, s.disk, me, proc);
      Moved(codec, s, a.pid, proc);
    } else {
      Ended(codec, s, a.pid);
    }
  }

  lemma StopsStaging(codec: Codec, disk: Disk, me: Proc, proc: Proc)
    requires Alone(codec, disk, me)
    requires me.Writer? && proc.Writer? && proc.id == me.id && proc.place == me.place && me.Staging()
    requires proc.w.RemoveStage? || (proc.w.Discard? && proc.Fd() == me.Fd())
    ensures Alone(codec, disk, proc)
  {
  }

  lemma FinishKeeps(codec: Codec, s: State, a: Action)
    requires Inv(codec, s) && Enabled(codec, s, a) && a.Finish?
    ensures Inv(codec, Next(s, a))
  {
    Moved(codec, s, a.pid, Next(s, a).procs[a.pid]);
  }

  lemma SubmitKeeps(codec: Codec, s: State, a: Action)
    requires Inv(codec, s) && Enabled(codec, s, a) && a.Submit?
    ensures Inv(codec, Next(s, a))
  {
    Moved(codec, s, a.pid, Next(s, a).procs[a.pid]);
  }

  /** Changing the files of a directory nobody confirmed or fills disturbs no other process. */
  lemma PutAlone(codec: Codec, disk: Disk, dir: DirId, contents: Dir, proc: Proc)
    requires Alone(codec, disk, proc) && dir in disk.dirs
    requires contents.lock == disk.dirs[dir].lock
             || (proc.Target() in disk.fs && (proc.Reader? || proc.Target().entry.Complete? || proc.Staging()) ==>
                  disk.fs[proc.Target()] != dir)
    requires proc.Staging() && proc.Target() in disk.fs ==> disk.fs[proc.Target()] != dir
    requires proc.Reader? && proc.l.Using? ==> proc.l.dir != dir
    ensures Alone(codec, disk.Put(dir, contents), proc)
  {
  }

  lemma PutBoth(disk: Disk, dir: DirId, contents: Dir, a: Proc, b: Proc)
    requires Both(disk, a, b) && dir in disk.dirs
    requires contents.lock == disk.dirs[dir].lock
             || (forall p | p in {a, b} && p.Staging() && p.Target() in disk.fs :: disk.fs[p.Target()] != dir)
    ensures Both(disk.Put(dir, contents), a, b)
  {
    assert a in {a, b} && b in {a, b};
  }

  lemma PutDisk(codec: Codec, disk: Disk, dir: DirId, contents: Dir)
    requires DiskOk(codec, disk) && dir in disk.dirs
    requires contents.lock.Some? ==> contents.lock.value in disk.inodes
    requires forall path | path in disk.fs && path.entry.Complete? :: disk.fs[path] != dir
    ensures DiskOk(codec, disk.Put(dir, contents))
  {
  }

  lemma UnlinkOther(codec: Codec, disk: Disk, me: Proc, file: File, other: Proc)
    requires DiskOk(codec, disk) && me.Purging().Some? && me.Purging().value in disk.dirs
    requires Alone(codec, disk, me) && Alone(codec, disk, other) && (other == me || Both(disk, me, other))
    ensures Alone(codec, Unlinked(disk, me, file), other)
  {
    var dir := me.Purging().value;
    assert other.Target() in disk.fs ==> PurgeOk(disk, me, other.Target());
    PutAlone(codec, disk, dir, Unlinked(disk, me, file).dirs[dir], other);
  }

  /** What a purge touches is no stage that may still be published. */
  lemma PurgedIsDead(codec: Codec, disk: Disk, me: Proc, other: Proc)
    requires me.Purging().Some? && Alone(codec, disk, me)
    requires other == me || Both(disk, me, other)
    ensures other.Staging() && other.Target() in disk.fs ==> disk.fs[other.Target()] != me.Purging().value
  {
    assert other.Target() in disk.fs ==> PurgeOk(disk, me, other.Target());
  }

  lemma UnlinkDisk(codec: Codec, disk: Disk, me: Proc, file: File)
    requires DiskOk(codec, disk) && me.Purging().Some? && me.Purging().value in disk.dirs && Alone(codec, disk, me)
    ensures DiskOk(codec, Unlinked(disk, me, file))
  {
    var dir := me.Purging().value;
    forall path | path in disk.fs && path.entry.Complete? ensures disk.fs[path] != dir {
      assert PurgeOk(disk, me, path);
    }
    PutDisk(codec, disk, dir, Unlinked(disk, me, file).dirs[dir]);
  }

  lemma UnlinkBoth(codec: Codec, disk: Disk, me: Proc, file: File, a: Proc, b: Proc)
    requires me.Purging().Some? && me.Purging().value in disk.dirs && Alone(codec, disk, me)
    requires a == me || Both(disk, me, a)
    requires b == me || Both(disk, me, b)
    requires Both(disk, a, b)
    ensures Both(Unlinked(disk, me, file), a, b)
  {
    PurgedIsDead(codec, disk, me, a);
    PurgedIsDead(codec, disk, me, b);
    PutBoth(disk, me.Purging().value, Unlinked(disk, me, file).dirs[me.Purging().value], a, b);
  }

  lemma UnlinkKeeps(codec: Codec, s: State, a: Action)
    requires Inv(codec, s) && Enabled(codec, s, a) && a.Unlink?
    ensures Inv(codec, Next(s, a))
  {
    var me, disk := s.procs[a.pid], s.disk;
    assert Alone(codec, disk, me);
    hide Alone, Both, DiskOk;
    UnlinkDisk(codec, disk, me, a.file);
    forall other | other in s.procs ensures Alone(codec, Unlinked(disk, me, a.file), s.procs[other]) {
      UnlinkOther(codec, disk, me, a.file, s.procs[other]);
    }
    forall x, y | x in s.procs && y in s.procs && x != y
      ensures Both(Unlinked(disk, me, a.file), s.procs[x], s.procs[y])
    {
      assert x != a.pid ==> Both(disk, me, s.procs[x]);
      assert y != a.pid ==> Both(disk, me, s.procs[y]);
      UnlinkBoth(codec, disk, me, a.file, s.procs[x], s.procs[y]);
    }
    Assemble(codec, s, s.On(Unlinked(disk, me, a.file)), a.pid);
  }

  /** Creating a missing lock file: whoever relies on a lock file already has one. */
  lemma WithLockOther(codec: Codec, disk: Disk, path: Path, unused: Inode, proc: Proc)
    requires DiskOk(codec, disk) && disk.Has(path) && Unused(disk, unused) && Alone(codec, disk, proc)
    ensures Alone(codec, disk.WithLock(path, unused), proc)
  {
  }

  lemma WithLockDisk(codec: Codec, disk: Disk, path: Path, unused: Inode)
    requires DiskOk(codec, disk) && disk.Has(path)
    ensures DiskOk(codec, disk.WithLock(path, unused))
  {
    assert PathOk(codec, disk, path);
    forall p, q | p in disk.fs && q in disk.fs ensures PathsDiffer(disk.WithLock(path, unused), p, q) {
      assert PathsDiffer(disk, p, q);
    }
    forall p | p in disk.fs ensures PathOk(codec, disk.WithLock(path, unused), p) {
      assert PathOk(codec, disk, p);
    }
  }

  lemma WithLockBoth(disk: Disk, path: Path, unused: Inode, a: Proc, b: Proc)
    requires disk.Has(path) && Both(disk, a, b)
    ensures Both(disk.WithLock(path, unused), a, b)
  {
  }

  lemma WithLockKeeps(codec: Codec, s: State, path: Path, unused: Inode)
    requires Inv(codec, s) && s.disk.Has(path) && Unused(s.disk, unused)
    ensures Inv(codec, s.On(s.disk.WithLock(path, unused)))
  {
    hide Alone, Both, DiskOk;
    WithLockDisk(codec, s.disk, path, unused);
    forall pid | pid in s.procs ensures Alone(codec, s.disk.WithLock(path, unused), s.procs[pid]) {
      WithLockOther(codec, s.disk, path, unused, s.procs[pid]);
    }
    forall a, b | a in s.procs && b in s.procs && a != b
      ensures Both(s.disk.WithLock(path, unused), s.procs[a], s.procs[b])
    {
      WithLockBoth(s.disk, path, unused, s.procs[a], s.procs[b]);
    }
  }

  ghost predicate Isolating(codec: Codec, disk: Disk, me: Proc, isolated: Path) {
    && DiskOk(codec, disk) && me.Remover? && me.r.RenameTarget? && disk.Has(me.victim) && Alone(codec, disk, me)
    && isolated !in disk.fs && isolated.place == me.victim.place
    && isolated.entry.Isolated? && isolated.entry.original == me.victim.entry
  }

  /** Whoever relies on the victim's name holds a lock that excludes the remover's. */
  lemma IsolateOther(codec: Codec, disk: Disk, me: Proc, isolated: Path, other: Proc)
    requires Isolating(codec, disk, me, isolated)
    requires Alone(codec, disk, other) && Both(disk, me, other)
    ensures Alone(codec, disk.Move(me.victim, isolated), other)
    ensures Both(disk.Move(me.victim, isolated), me.(r := Unlock(me.r.fd, isolated)), other)
  {
  }

  lemma IsolateBoth(disk: Disk, victim: Path, isolated: Path, a: Proc, b: Proc)
    requires victim in disk.fs && isolated.entry.Isolated?
    requires Both(disk, a, b)
    ensures Both(disk.Move(victim, isolated), a, b)
  {
  }

  lemma IsolateDisk(codec: Codec, disk: Disk, me: Proc, isolated: Path)
    requires Isolating(codec, disk, me, isolated)
    ensures DiskOk(codec, disk.Move(me.victim, isolated))
    ensures Alone(codec, disk.Move(me.victim, isolated), me.(r := Unlock(me.r.fd, isolated)))
  {
    var moved := disk.Move(me.victim, isolated);
    forall p, q | p in moved.fs && q in moved.fs ensures PathsDiffer(moved, p, q) {
      assert PathsDiffer(disk, if p == isolated then me.victim else p, if q == isolated then me.victim else q);
    }
  }

  lemma IsolateKeeps(codec: Codec, s: State, a: Action)
    requires Inv(codec, s) && Enabled(codec, s, a) && a.Step?
    requires s.procs[a.pid].Remover? && s.procs[a.pid].r.RenameTarget? && s.disk.Has(s.procs[a.pid].victim)
    ensures Inv(codec, Next(s, a))
  {
    hide Alone, Both, DiskOk;
    var me, disk := s.procs[a.pid], s.disk;
    var isolated := Path(me.victim.place, Isolated(me.victim.entry, a.unused));
    IsolateDisk(codec, disk, me, isolated);
    forall other | other in s.procs && other != a.pid
      ensures Alone(codec, disk.Move(me.victim, isolated), s.procs[other])
      ensures Both(disk.Move(me.victim, isolated), me.(r := Unlock(me.r.fd, isolated)), s.procs[other])
    {
      IsolateOther(codec, disk, me, isolated, s.procs[other]);
    }
    forall x, y | x in s.procs && y in s.procs && x != y
      ensures Both(disk.Move(me.victim, isolated), s.procs[x], s.procs[y])
    {
      IsolateBoth(disk, me.victim, isolated, s.procs[x], s.procs[y]);
    }
    Assemble(codec, s, s.On(disk.Move(me.victim, isolated)).At(a.pid, me.(r := Unlock(me.r.fd, isolated))), a.pid);
  }

  lemma UnnameOther(codec: Codec, disk: Disk, path: Path, dir: DirId, proc: Proc)
    requires Alone(codec, disk, proc) && !path.entry.Complete? && dir in disk.dirs && disk.dirs[dir].Empty()
    ensures Alone(codec, disk.Unname(path, dir), proc)
  {
  }

  lemma UnnameDisk(codec: Codec, disk: Disk, path: Path, dir: DirId)
    requires DiskOk(codec, disk)
    ensures DiskOk(codec, disk.Unname(path, dir))
  {
    forall p, q | p in disk.Unname(path, dir).fs && q in disk.Unname(path, dir).fs
      ensures PathsDiffer(disk.Unname(path, dir), p, q)
    {
      assert PathsDiffer(disk, p, q);
    }
  }

  lemma UnnameBoth(disk: Disk, path: Path, dir: DirId, a: Proc, b: Proc)
    requires Both(disk, a, b)
    ensures Both(disk.Unname(path, dir), a, b)
  {
  }

  lemma UnnameKeeps(codec: Codec, s: State, path: Path, dir: DirId)
    requires Inv(codec, s) && !path.entry.Complete?
    requires dir in s.disk.dirs && s.disk.dirs[dir].Empty()
    ensures Inv(codec, s.On(s.disk.Unname(path, dir)))
  {
    hide Alone, Both, DiskOk;
    UnnameDisk(codec, s.disk, path, dir);
    forall pid | pid in s.procs ensures Alone(codec, s.disk.Unname(path, dir), s.procs[pid]) {
      UnnameOther(codec, s.disk, path, dir, s.procs[pid]);
    }
    forall a, b | a in s.procs && b in s.procs && a != b
      ensures Both(s.disk.Unname(path, dir), s.procs[a], s.procs[b])
    {
      UnnameBoth(s.disk, path, dir, s.procs[a], s.procs[b]);
    }
  }

  /** Locking what nobody else locks, or moving on without a new claim. */
  lemma QuietStep(codec: Codec, s: State, a: Action)
    requires Inv(codec, s) && Enabled(codec, s, a) && a.Step? && !s.procs[a.pid].Writer?
    requires a.pid in Next(s, a).procs && Next(s, a).disk == s.disk
    requires !(s.procs[a.pid].Reader? && s.procs[a.pid].l.OpenLease?)
             && !(s.procs[a.pid].Remover? && (s.procs[a.pid].r.OpenTarget? || s.procs[a.pid].r.RenameTarget?))
    ensures Inv(codec, Next(s, a))
  {
    var me, t := s.procs[a.pid], Next(s, a);
    assert Alone(codec, s.disk, me);
    assert Alone(codec, s.disk, t.procs[a.pid]);
    forall other | other in s.procs && other != a.pid ensures Both(s.disk, t.procs[a.pid], s.procs[other]) {
      assert Both(s.disk, me, s.procs[other]);
    }
    hide Alone, Both, DiskOk, Next;
    Moved(codec, s, a.pid, t.procs[a.pid]);
  }

  /** Opening a lock file through a name that exists. */
  lemma OpensTarget(codec: Codec, s: State, pid: Pid, path: Path, unused: nat, proc: Proc)
    requires Inv(codec, s) && pid in s.procs && s.disk.Has(path) && Unused(s.disk, unused)
    requires s.procs[pid].Target() == path && s.procs[pid].Fd().None? && s.procs[pid].Purging().None?
    requires proc.Target() == path && proc.Fd() == Some(s.disk.LockOf(path, unused)) && proc.Purging().None?
    requires (s.procs[pid].Writer? && s.procs[pid].w.OpenLock? && proc.Writer? && proc.w.TakeLock?)
          || (s.procs[pid].Remover? && proc.Remover? && proc.r.TakeExclusive?)
          || (s.procs[pid].Reader? && proc.Reader? && proc.l.TakeShared?)
    ensures Inv(codec, s.On(s.disk.WithLock(path, unused)).At(pid, proc))
  {
    WithLockKeeps(codec, s, path, unused);
    var t := s.On(s.disk.WithLock(path, unused));
    var me := s.procs[pid];
    assert Alone(codec, t.disk, me);
    assert PathOk(codec, t.disk, path);
    assert Alone(codec, t.disk, proc);
    forall other | other in t.procs && other != pid ensures Both(t.disk, proc, t.procs[other]) {
      assert Both(t.disk, me, t.procs[other]);
      OpensBoth(codec, t.disk, me, proc, t.procs[other]);
    }
    hide Alone, Both, DiskOk;
    Moved(codec, t, pid, proc);
  }

  lemma OpensBoth(codec: Codec, disk: Disk, me: Proc, proc: Proc, other: Proc)
    requires DiskOk(codec, disk) && Alone(codec, disk, other) && Both(disk, me, other)
    requires me.Target() == proc.Target() && disk.Has(me.Target()) && proc.Fd() == disk.Look(me.Target()).lock
    requires (me.Writer? && me.w.OpenLock? && proc.Writer? && proc.w.TakeLock?)
          || (me.Remover? && proc.Remover? && proc.r.TakeExclusive?)
          || (me.Reader? && proc.Reader? && proc.l.TakeShared?)
    ensures Both(disk, proc, other)
  {
  }

  lemma ReaderKeeps(codec: Codec, s: State, a: Action)
    requires Inv(codec, s) && Enabled(codec, s, a) && a.Step? && s.procs[a.pid].Reader?
    ensures Inv(codec, Next(s, a))
  {
    hide Alone, Both, DiskOk;
    if a.pid !in Next(s, a).procs {
      Ended(codec, s, a.pid);
    } else if s.procs[a.pid].l.OpenLease? {
      OpensTarget(codec, s, a.pid, s.procs[a.pid].Target(), a.unused, Next(s, a).procs[a.pid]);
    } else {
      QuietStep(codec, s, a);
    }
  }

  lemma RemoverKeeps(codec: Codec, s: State, a: Action)
    requires Inv(codec, s) && Enabled(codec, s, a) && a.Step? && s.procs[a.pid].Remover?
    ensures Inv(codec, Next(s, a))
  {
    var me, t := s.procs[a.pid], Next(s, a);
    assert Alone(codec, s.disk, me);
    assert RemoverOk(s.disk, me);
    hide Alone, Both, DiskOk;
    if a.pid !in t.procs {
      if me.r.PurgeIsolated? {
        UnnameKeeps(codec, s, me.r.isolated, me.r.dir);
        Ended(codec, s.On(t.disk), a.pid);
      } else {
        Ended(codec, s, a.pid);
      }
    } else if me.r.RenameTarget? {
      IsolateKeeps(codec, s, a);
    } else if me.r.OpenTarget? {
      OpensTarget(codec, s, a.pid, me.victim, a.unused, t.procs[a.pid]);
    } else {
      QuietStep(codec, s, a);
    }
  }

  function Stage(disk: Disk, stage: Path, dir: DirId): Disk {
    disk.(fs := disk.fs[stage := dir]).Put(dir, Dir(None, None, None, None))
  }

  lemma MakeDirDisk(codec: Codec, disk: Disk, me: Proc, dir: DirId)
    requires DiskOk(codec, disk) && me.Writer? && me.w.MakeDir? && Alone(codec, disk, me) && dir !in disk.dirs
    ensures DiskOk(codec, Stage(disk, me.Target(), dir))
    ensures Alone(codec, Stage(disk, me.Target(), dir), me.(w := OpenLock))
  {
    var made := Stage(disk, me.Target(), dir);
    forall p, q | p in made.fs && q in made.fs ensures PathsDiffer(made, p, q) {
      assert p in disk.fs ==> PathOk(codec, disk, p);
      assert q in disk.fs ==> PathOk(codec, disk, q);
      assert p in disk.fs && q in disk.fs ==> PathsDiffer(disk, p, q);
    }
  }

  lemma MakeDirOther(codec: Codec, disk: Disk, me: Proc, dir: DirId, other: Proc)
    requires DiskOk(codec, disk) && me.Writer? && me.w.MakeDir? && Alone(codec, disk, me) && dir !in disk.dirs
    requires Alone(codec, disk, other) && Both(disk, me, other)
    ensures Alone(codec, Stage(disk, me.Target(), dir), other)
    ensures Both(Stage(disk, me.Target(), dir), me.(w := OpenLock), other)
  {
  }

  lemma MakeDirBoth(codec: Codec, disk: Disk, me: Proc, dir: DirId, a: Proc, b: Proc)
    requires DiskOk(codec, disk) && me.Writer? && me.w.MakeDir? && dir !in disk.dirs
    requires Both(disk, me, a) && Both(disk, me, b) && Both(disk, a, b)
    ensures Both(Stage(disk, me.Target(), dir), a, b)
  {
  }

  lemma MakeDirKeeps(codec: Codec, s: State, a: Action)
    requires Inv(codec, s) && Enabled(codec, s, a) && a.Step?
    requires s.procs[a.pid].Writer? && s.procs[a.pid].w.MakeDir?
    ensures Inv(codec, Next(s, a))
  {
    hide Alone, Both, DiskOk;
    var me, disk := s.procs[a.pid], s.disk;
    assert Alone(codec, disk, me);
    MakeDirDisk(codec, disk, me, a.unused);
    forall other | other in s.procs && other != a.pid
      ensures Alone(codec, Stage(disk, me.Target(), a.unused), s.procs[other])
      ensures Both(Stage(disk, me.Target(), a.unused), me.(w := OpenLock), s.procs[other])
    {
      MakeDirOther(codec, disk, me, a.unused, s.procs[other]);
    }
    forall x, y | x in s.procs && y in s.procs && x != a.pid && y != a.pid && x != y
      ensures Both(Stage(disk, me.Target(), a.unused), s.procs[x], s.procs[y])
    {
      MakeDirBoth(codec, disk, me, a.unused, s.procs[x], s.procs[y]);
    }
    Assemble(codec, s, s.On(Stage(disk, me.Target(), a.unused)).At(a.pid, me.(w := OpenLock)), a.pid);
  }

  ghost predicate SameStage(disk: Disk, me: Proc, contents: Dir, proc: Proc) {
    && me.Staging() && disk.Has(me.Target()) && contents.lock == disk.Look(me.Target()).lock
    && proc.Writer? && proc.id == me.id && proc.place == me.place && proc.Staging()
    && proc.Fd() == me.Fd() && proc.Fd().Some? && me.HoldsExclusive(proc.Fd().value)
  }

  /** A staging writer works on the files of its own stage. */
  lemma StageOther(codec: Codec, disk: Disk, me: Proc, contents: Dir, proc: Proc, other: Proc)
    requires DiskOk(codec, disk) && SameStage(disk, me, contents, proc)
    requires Alone(codec, disk, other) && Both(disk, me, other)
    ensures Alone(codec, disk.Put(disk.fs[me.Target()], contents), other)
    ensures Both(disk.Put(disk.fs[me.Target()], contents), proc, other)
  {
    var target := other.Target();
    assert target in disk.fs ==> PathsDiffer(disk, target, me.Target());
    PutAlone(codec, disk, disk.fs[me.Target()], contents, other);
  }

  lemma StageDisk(codec: Codec, disk: Disk, me: Proc, contents: Dir)
    requires DiskOk(codec, disk) && me.Staging() && disk.Has(me.Target())
             && contents.lock == disk.Look(me.Target()).lock
    ensures DiskOk(codec, disk.Put(disk.fs[me.Target()], contents))
  {
    forall path | path in disk.fs && path.entry.Complete? ensures disk.fs[path] != disk.fs[me.Target()] {
      assert PathsDiffer(disk, path, me.Target());
    }
    PutDisk(codec, disk, disk.fs[me.Target()], contents);
  }

  lemma StageKeeps(codec: Codec, s: State, pid: Pid, contents: Dir, proc: Proc)
    requires Inv(codec, s) && pid in s.procs && SameStage(s.disk, s.procs[pid], contents, proc)
    requires Alone(codec, s.disk.Put(s.disk.fs[proc.Target()], contents), proc)
    ensures Inv(codec, s.On(s.disk.Put(s.disk.fs[proc.Target()], contents)).At(pid, proc))
  {
    hide Alone, Both, DiskOk;
    var me, disk := s.procs[pid], s.disk;
    var dir := disk.fs[me.Target()];
    StageDisk(codec, disk, me, contents);
    forall other | other in s.procs && other != pid
      ensures Alone(codec, disk.Put(dir, contents), s.procs[other])
              && Both(disk.Put(dir, contents), proc, s.procs[other])
    {
      StageOther(codec, disk, me, contents, proc, s.procs[other]);
    }
    forall x, y | x in s.procs && y in s.procs && x != y ensures Both(disk.Put(dir, contents), s.procs[x], s.procs[y]) {
      PutBoth(disk, dir, contents, s.procs[x], s.procs[y]);
    }
    Assemble(codec, s, s.On(disk.Put(dir, contents)).At(pid, proc), pid);
  }

  lemma AppendKeeps(codec: Codec, s: State, a: Action)
    requires Inv(codec, s) && Enabled(codec, s, a) && a.Append?
    ensures Inv(codec, Next(s, a))
  {
    var me, t := s.procs[a.pid], Next(s, a);
    assert Alone(codec, s.disk, me);
    assert t == s.On(s.disk.Put(s.disk.fs[me.Target()], t.disk.Look(me.Target()))).At(a.pid, me);
    StageKeeps(codec, s, a.pid, t.disk.Look(me.Target()), me);
  }

  ghost predicate Publishing(codec: Codec, disk: Disk, me: Proc) {
    DiskOk(codec, disk) && me.Writer? && me.w.RenameStage? && disk.Has(me.Target()) && Alone(codec, disk, me)
  }

  function Publish(disk: Disk, me: Proc): Disk
    requires me.Writer? && me.Target() in disk.fs
  {
    disk.Move(me.Target(), Path(me.place, Complete(me.id)))
  }

  /** Publishing: the name changes, the directory and its files do not. */
  lemma PublishOther(codec: Codec, disk: Disk, me: Proc, other: Proc)
    requires Publishing(codec, disk, me)
    requires Alone(codec, disk, other) && Both(disk, me, other)
    ensures Alone(codec, Publish(disk, me), other)
    ensures Both(Publish(disk, me), me.(w := ReleaseLock(me.w.fd)), other)
  {
    var moved := Publish(disk, me);
    forall path | path in moved.fs ensures PurgeOk(moved, other, path) {
      assert PurgeOk(disk, other, me.Target());
    }
  }

  lemma PublishBoth(disk: Disk, me: Proc, a: Proc, b: Proc)
    requires me.Writer? && me.w.RenameStage? && me.Target() in disk.fs
    requires Both(disk, me, a) && Both(disk, me, b) && Both(disk, a, b)
    ensures Both(Publish(disk, me), a, b)
  {
  }

  lemma PublishDisk(codec: Codec, disk: Disk, me: Proc)
    requires Publishing(codec, disk, me)
    ensures DiskOk(codec, Publish(disk, me))
    ensures Alone(codec, Publish(disk, me), me.(w := ReleaseLock(me.w.fd)))
  {
    var complete := Path(me.place, Complete(me.id));
    var moved := Publish(disk, me);
    forall p, q | p in moved.fs && q in moved.fs ensures PathsDiffer(moved, p, q) {
      assert PathsDiffer(disk, if p == complete then me.Target() else p, if q == complete then me.Target() else q);
    }
  }

  lemma PublishReady(codec: Codec, s: State, pid: Pid)
    requires Inv(codec, s) && pid in s.procs && s.procs[pid].Writer? && s.procs[pid].w.RenameStage?
    ensures Publishing(codec, s.disk, s.procs[pid]) && Path(s.procs[pid].place, Complete(s.procs[pid].id)) !in s.disk.fs
  {
    assert Alone(codec, s.disk, s.procs[pid]);
  }

  lemma PublishKeeps(codec: Codec, s: State, a: Action)
    requires Inv(codec, s) && Enabled(codec, s, a) && a.Step?
    requires s.procs[a.pid].Writer? && s.procs[a.pid].w.RenameStage?
    ensures Inv(codec, Next(s, a))
  {
    hide Alone, Both, DiskOk;
    var me, disk := s.procs[a.pid], s.disk;
    PublishReady(codec, s, a.pid);
    PublishDisk(codec, disk, me);
    forall other | other in s.procs && other != a.pid
      ensures Alone(codec, Publish(disk, me), s.procs[other])
      ensures Both(Publish(disk, me), me.(w := ReleaseLock(me.w.fd)), s.procs[other])
    {
      PublishOther(codec, disk, me, s.procs[other]);
    }
    forall x, y | x in s.procs && y in s.procs && x != a.pid && y != a.pid && x != y
      ensures Both(Publish(disk, me), s.procs[x], s.procs[y])
    {
      PublishBoth(disk, me, s.procs[x], s.procs[y]);
    }
    Assemble(codec, s, s.On(Publish(disk, me)).At(a.pid, me.(w := ReleaseLock(me.w.fd))), a.pid);
  }

  ghost predicate WritesStage(codec: Codec, s: State, pid: Pid, t: State, unused: nat) {
    && DiskOk(codec, s.disk) && pid in s.procs && s.procs[pid].Writer? && Alone(codec, s.disk, s.procs[pid])
    && (s.procs[pid].w.MakeDump? || s.procs[pid].w.WriteDraft? || s.procs[pid].w.FinalizeDraft?)
    && t == WriterStep(s, pid, s.procs[pid], unused) && t.disk != s.disk
  }

  lemma StageWriteShape(codec: Codec, s: State, pid: Pid, t: State, unused: nat)
    requires WritesStage(codec, s, pid, t, unused)
    ensures pid in t.procs && s.disk.Has(s.procs[pid].Target()) && t.disk.Has(s.procs[pid].Target())
    ensures SameStage(s.disk, s.procs[pid], t.disk.Look(s.procs[pid].Target()), t.procs[pid])
    ensures t == s.On(s.disk.Put(s.disk.fs[s.procs[pid].Target()], t.disk.Look(s.procs[pid].Target())))
             .At(pid, t.procs[pid])
  {
  }

  lemma StageWriteAlone(codec: Codec, s: State, pid: Pid, t: State, unused: nat)
    requires WritesStage(codec, s, pid, t, unused)
    ensures pid in t.procs && Alone(codec, t.disk, t.procs[pid])
  {
    hide Published, Describes, Records, DiskOk, Unused;
  }

  lemma StageWriteKeeps(codec: Codec, s: State, a: Action)
    requires Inv(codec, s) && Enabled(codec, s, a) && a.Step? && s.procs[a.pid].Writer?
    requires s.procs[a.pid].w.MakeDump? || s.procs[a.pid].w.WriteDraft? || s.procs[a.pid].w.FinalizeDraft?
    requires Next(s, a).disk != s.disk
    ensures Inv(codec, Next(s, a))
  {
    var t := Next(s, a);
    assert WritesStage(codec, s, a.pid, t, a.unused);
    hide Alone, Both, DiskOk, Next, SameStage, WritesStage, WriterStep;
    StageWriteShape(codec, s, a.pid, t, a.unused);
    StageWriteAlone(codec, s, a.pid, t, a.unused);
    StageKeeps(codec, s, a.pid, t.disk.Look(s.procs[a.pid].Target()), t.procs[a.pid]);
  }

  lemma WriterEndKeeps(codec: Codec, s: State, a: Action)
    requires Inv(codec, s) && Enabled(codec, s, a) && a.Step? && s.procs[a.pid].Writer?
    requires a.pid !in Next(s, a).procs
    ensures Inv(codec, Next(s, a))
  {
    var me, t := s.procs[a.pid], Next(s, a);
    hide Published, Describes, Records;
    if me.w.PurgeStage? {
      UnnameKeeps(codec, s, me.Target(), me.w.dir);
      Ended(codec, s.On(t.disk), a.pid);
    } else {
      Ended(codec, s, a.pid);
    }
  }

  lemma WriterOpenKeeps(codec: Codec, s: State, a: Action)
    requires Inv(codec, s) && Enabled(codec, s, a) && a.Step? && s.procs[a.pid].Writer?
    requires s.procs[a.pid].w.OpenLock? && s.disk.Has(s.procs[a.pid].Target())
    ensures Inv(codec, Next(s, a))
  {
    hide Alone, Both, DiskOk;
    OpensTarget(codec, s, a.pid, s.procs[a.pid].Target(), a.unused, Next(s, a).procs[a.pid]);
  }

  lemma QuietAlone(codec: Codec, s: State, a: Action)
    requires DiskOk(codec, s.disk) && a.pid in s.procs && Alone(codec, s.disk, s.procs[a.pid]) && Enabled(codec, s, a)
             && a.Step? && s.procs[a.pid].Writer?
    requires a.pid in Next(s, a).procs && Next(s, a).disk == s.disk
    requires !s.procs[a.pid].w.MakeDir? && !s.procs[a.pid].w.RenameStage?
    requires !(s.procs[a.pid].w.OpenLock? && s.disk.Has(s.procs[a.pid].Target()))
    ensures Alone(codec, s.disk, Next(s, a).procs[a.pid])
  {
    hide Published, Describes, Records, Unused;
  }

  lemma QuietBoth(codec: Codec, s: State, a: Action, other: Proc)
    requires a.pid in s.procs && a.Step? && s.procs[a.pid].Writer? && Both(s.disk, s.procs[a.pid], other)
    requires a.pid in Next(s, a).procs && Next(s, a).disk == s.disk
    requires !s.procs[a.pid].w.MakeDir? && !s.procs[a.pid].w.RenameStage?
    requires !(s.procs[a.pid].w.OpenLock? && s.disk.Has(s.procs[a.pid].Target()))
    requires s.procs[a.pid].w.TakeLock? && s.FreeForExclusive(a.pid, s.procs[a.pid].w.fd) ==>
               !other.Holds(s.procs[a.pid].w.fd)
    ensures Both(s.disk, Next(s, a).procs[a.pid], other)
  {
  }

  lemma WriterQuietKeeps(codec: Codec, s: State, a: Action)
    requires Inv(codec, s) && Enabled(codec, s, a) && a.Step? && s.procs[a.pid].Writer?
    requires a.pid in Next(s, a).procs && Next(s, a).disk == s.disk
    requires !s.procs[a.pid].w.MakeDir? && !s.procs[a.pid].w.RenameStage?
    requires !(s.procs[a.pid].w.OpenLock? && s.disk.Has(s.procs[a.pid].Target()))
    ensures Inv(codec, Next(s, a))
  {
    var me, proc := s.procs[a.pid], Next(s, a).procs[a.pid];
    assert Alone(codec, s.disk, me);
    QuietAlone(codec, s, a);
    forall other | other in s.procs && other != a.pid ensures Both(s.disk, proc, s.procs[other]) {
      QuietBoth(codec, s, a, s.procs[other]);
    }
    hide Alone, Both, DiskOk, Enabled, Next;
    Moved(codec, s, a.pid, Next(s, a).procs[a.pid]);
  }

  lemma WriterKeeps(codec: Codec, s: State, a: Action)
    requires Inv(codec, s) && Enabled(codec, s, a) && a.Step? && s.procs[a.pid].Writer?
    ensures Inv(codec, Next(s, a))
  {
    var w := s.procs[a.pid].w;
    if a.pid !in Next(s, a).procs {
      WriterEndKeeps(codec, s, a);
    } else if w.MakeDir? {
      MakeDirKeeps(codec, s, a);
    } else if w.RenameStage? {
      PublishKeeps(codec, s, a);
    } else if w.OpenLock? && s.disk.Has(s.procs[a.pid].Target()) {
      WriterOpenKeeps(codec, s, a);
    } else if w.MakeDump? || w.WriteDraft? || w.FinalizeDraft? {
      if Next(s, a).disk != s.disk {
        StageWriteKeeps(codec, s, a);
      } else {
        WriterQuietKeeps(codec, s, a);
      }
    } else {
      WriterQuietKeeps(codec, s, a);
    }
  }
}
