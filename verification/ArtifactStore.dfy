/**
 The store's own calls, executed without interference: each performs the protocol's atomic steps
 in the order of the source, so every state it passes through is one the protocol reaches.
 */
module ArtifactStore {
  import opened Domain
  import opened ArtifactProtocol
  import opened ArtifactSafety
  import opened ArtifactTheorems

  datatype RemovalOutcome = Removed | Locked | Gone | Failed

  /** How far a recursive removal gets: to the end, or to an I/O error after it took these files. */
  datatype Removal = Whole | Cut(files: seq<File>)

  /** Where a removal meets an I/O error, if anywhere. */
  datatype RemovalFault = Unhindered | AtOpen | AtLock | AtIsolate | AtRemove(files: seq<File>)

  /** Where `begin` meets an I/O error, if anywhere; `AtRestrict` is the permission of the new directory. */
  datatype BeginFault = Smooth | AtMakeDir | AtRestrict | AtOpenLock(cleanup: Removal) | AtTakeLock(cleanup: Removal)
  {
    /** The new directory is not removed, or not completely. */
    predicate LeavesStage() {
      AtRestrict? || ((AtOpenLock? || AtTakeLock?) && cleanup.Cut?)
    }
  }

  /** What creating the dump file meets: the file is there already when its permission fails. */
  datatype DumpFault = Flawless | AtCreate | AtFilePermission

  /** A directory some of whose files are gone. */
  function Stripped(contents: Dir, files: seq<File>): Dir {
    Dir(if LockFile in files then None else contents.lock, if DumpFile in files then None else contents.dump,
        if DraftFile in files then None else contents.draft, if MetadataFile in files then None else contents.metadata)
  }

  class CacheDisk {
    ghost const codec: Codec
    var state: State
    ghost var history: seq<Action>

    ghost predicate Valid()
      reads this
    {
      ArtifactProtocol.Valid(codec, INITIAL, history) && Run(INITIAL, history) == state
    }

    constructor (ghost codec: Codec)
      ensures Valid() && state == INITIAL && this.codec == codec
    {
      this.codec := codec;
      state := INITIAL;
      history := [];
    }

    method Perform(a: Action)
      requires Valid() && Enabled(codec, state, a)
      modifies this
      ensures Valid() && state == Next(old(state), a)
    {
      Snoc(codec, INITIAL, history, a);
      state := Next(state, a);
      history := history + [a];
    }

    /** Unlinks files of the directory that is being removed. */
    method UnlinkAll(pid: Pid, files: seq<File>)
      requires Valid() && pid in state.procs && state.procs[pid].Purging().Some?
      requires state.procs[pid].Purging().value in state.disk.dirs
      modifies this
      ensures Valid() && state.procs == old(state.procs)
      ensures var dir := old(state.procs[pid].Purging().value);
              state.disk == old(state.disk).Put(dir, Stripped(old(state.disk.dirs[dir]), files))
    {
      hide Next, Enabled, Inv, ArtifactProtocol.Valid, Run;
      ghost var dir := state.procs[pid].Purging().value;
      assert state.disk.dirs == state.disk.dirs[dir := Stripped(state.disk.dirs[dir], [])];
      for k := 0 to |files|
        invariant Valid() && state.procs == old(state.procs)
        invariant state.disk == old(state.disk).Put(dir, Stripped(old(state.disk.dirs[dir]), files[..k]))
      {
        Unlinks(codec, state, pid, files[k]);
        UnlinksNext(old(state.disk), state.procs[pid], files, k);
        Perform(Unlink(pid, files[k]));
      }
      assert files[..|files|] == files;
    }

    /** Recursive removal: every file of the directory, then its name; or what an error leaves of it. */
    method Purge(pid: Pid, spare: nat, removal: Removal)
      requires Valid() && pid in state.procs && state.procs[pid].Purging().Some? && Unused(state.disk, spare)
      requires state.disk.Has(state.procs[pid].PurgePath())
               && state.disk.fs[state.procs[pid].PurgePath()] == state.procs[pid].Purging().value
      modifies this
      ensures Valid() && state.procs == old(state.procs) - {pid}
      ensures state.disk.fs == if removal.Whole? then old(state.disk.fs) - {old(state.procs[pid].PurgePath())}
                               else old(state.disk.fs)
      ensures forall dir | dir in old(state.disk.dirs) && dir != old(state.procs[pid].Purging().value) ::
                dir in state.disk.dirs && state.disk.dirs[dir] == old(state.disk.dirs[dir])
      ensures removal.Cut? ==>
                && state.disk.Has(old(state.procs[pid].PurgePath()))
                && state.disk.Look(old(state.procs[pid].PurgePath())) ==
                     Stripped(old(state.disk.Look(state.procs[pid].PurgePath())), removal.files)
    {
      hide Next, Enabled, Inv, ArtifactProtocol.Valid, Run;
      match removal {
        case Whole =>
          UnlinkAll(pid, [LockFile, DumpFile, DraftFile, MetadataFile]);
          PurgeEnds(codec, state, pid, spare);
          Perform(Step(pid, spare));
        case Cut(files) =>
          UnlinkAll(pid, files);
          PurgeFails(codec, state, pid);
          Perform(Fail(pid));
      }
    }

    /** Opening and locking the victim's lock file, which is created when missing. */
    method LockVictim(pid: Pid, victim: Path, inode: nat, tag: nat, fault: RemovalFault)
      returns (outcome: Option<RemovalOutcome>)
      requires Valid() && pid !in state.procs && Removable(victim.entry)
      requires Unused(state.disk, inode) && Unused(state.disk, tag) && inode != tag
      modifies this
      ensures Valid()
      ensures outcome == if fault.AtOpen? then Some(Failed)
                         else if !old(state.disk.Has(victim)) then Some(Gone)
                         else if fault.AtLock? then Some(Failed)
                         else if old(LockTaken(state, victim)) then Some(Locked)
                         else None
      ensures outcome.Some? ==> state.procs == old(state.procs) && state.disk.fs == old(state.disk.fs)
      ensures outcome == Some(Gone) || outcome == Some(Locked) ==> state == old(state)
      ensures outcome.None? ==> exists fd :: state.procs == old(state.procs)[pid := Remover(victim, RenameTarget(fd))]
      ensures state.disk == old(state.disk)
              || (old(state.disk.Has(victim)) && state.disk == old(state.disk.WithLock(victim, inode)))
      ensures outcome.None? ==> state.disk == old(state.disk.WithLock(victim, inode))
    {
      hide Next, Enabled, Inv, ArtifactProtocol.Valid, Run;
      ghost var s := state;
      NobodyHoldsUnused(codec, s, history, inode);
      SpawnRemover(codec, s, pid, victim);
      Perform(Spawn(pid, Remover(victim, OpenTarget)));
      if fault.AtOpen? {
        RemoverFails(codec, s, s.disk, pid, Remover(victim, OpenTarget));
        Perform(Fail(pid));
        return Some(Failed);
      }
      RemoverOpens(codec, s, pid, victim, inode);
      Perform(Step(pid, inode));
      if pid !in state.procs {
        return Some(Gone);
      }
      ghost var fd := s.disk.LockOf(victim, inode);
      if fault.AtLock? {
        RemoverFails(codec, s, state.disk, pid, Remover(victim, TakeExclusive(fd)));
        Perform(Fail(pid));
        return Some(Failed);
      }
      RemoverLocks(codec, s.On(s.disk.WithLock(victim, inode)), pid, victim, fd, tag);
      Perform(Step(pid, tag));
      if pid !in state.procs {
        return Some(Locked);
      }
      return None;
    }

    /**
     Dropping an unpublished stage: unlock, then remove it under its own name. An error of the removal is
     ignored, and the rest of the stage stays.
     */
    method DropStage(pid: Pid, spare: nat, removal: Removal)
      requires Valid() && pid in state.procs && state.procs[pid].Writer? && state.procs[pid].w.Discard?
      requires state.disk.Has(state.procs[pid].Target()) && Unused(state.disk, spare)
      modifies this
      ensures Valid() && Dropped(old(state), state, pid, removal)
    {
      hide Next, Enabled, Inv, ArtifactProtocol.Valid, Run;
      OneDirectoryPerName(codec, state, history, state.procs[pid].Target());
      WriterSteps(codec, state, pid, spare);
      Perform(Step(pid, spare));
      WriterSteps(codec, state, pid, spare);
      Perform(Step(pid, spare));
      Purge(pid, spare, removal);
    }

    /** The compressor reported success, and the metadata was submitted. */
    method SubmitMetadata(pid: Pid, input: Bytes, metrics: CompressionMetrics, meta: Metadata)
      requires Valid() && pid in state.procs && Compressed(codec, state.disk, state.procs[pid], input, metrics)
      modifies this
      ensures Valid()
      ensures var proc := old(state.procs[pid]).(w := CheckMetadata(old(state.procs[pid].w.fd), metrics));
              state == old(state).At(pid, Submitted(proc, meta))
    {
      hide Inv, ArtifactProtocol.Valid, Run;
      Perform(Finish(pid, input, metrics));
      Perform(Submit(pid, meta));
    }

    /** The calls from the size check to the rename, of which one may fail. */
    method WritePublication(pid: Pid, meta: Metadata, fault: PublishFault, spare: nat) returns (sizeDiffers: bool)
      requires Valid() && pid in state.procs && state.procs[pid].Writer?
      requires state.procs[pid].w.CheckSize? && state.procs[pid].w.meta == meta && Unused(state.disk, spare)
      modifies this
      ensures Valid() && Unused(state.disk, spare)
      ensures old(Sized(state.disk, state.procs[pid]))
      ensures sizeDiffers <==>
                fault != AtSize && old(|state.disk.Look(state.procs[pid].Target()).dump.value|) != meta.compressedBytes
      ensures sizeDiffers || fault in {AtSize, AtDraft, AtFinalize, AtRename} ==>
                && state.disk.fs == old(state.disk.fs) && pid in state.procs
                   && state.disk.Has(old(state.procs[pid].Target()))
                && state.procs ==
                     old(state.procs)[pid := old(state.procs[pid]).(w := Discard(old(state.procs[pid].w.fd)))]
                && forall path | old(state.disk.Has(path)) && path != old(state.procs[pid].Target()) ::
                     state.disk.Has(path) && state.disk.Look(path) == old(state.disk.Look(path))
      ensures !sizeDiffers && fault in {NoFault, AtParentSync} ==>
                && state.procs ==
                     old(state.procs)[pid := old(state.procs[pid]).(w := ReleaseLock(old(state.procs[pid].w.fd)))]
                && state.disk == PublishedDisk(old(state.disk), old(state.procs[pid]), meta)
    {
      hide Next, Enabled, Inv, ArtifactProtocol.Valid, Run, WriterStep, Records;
      OneDirectoryPerName(codec, state, history, state.procs[pid].Target());
      SubmittedStage(codec, state, history, pid);
      if fault == AtSize {
        WriterFails(codec, state, pid);
        Perform(Fail(pid));
        return false;
      }
      if |state.disk.Look(state.procs[pid].Target()).dump.value| != meta.compressedBytes {
        SizeIsRefused(codec, state, pid, spare);
        Perform(Step(pid, spare));
        return true;
      }
      Publishes(codec, state, pid, spare);
      Perform(Step(pid, spare));
      if fault == AtDraft {
        WriterFails(codec, state, pid);
        Perform(Fail(pid));
        return false;
      }
      Perform(Step(pid, spare));
      if fault == AtFinalize {
        WriterFails(codec, state, pid);
        Perform(Fail(pid));
        return false;
      }
      Perform(Step(pid, spare));
      if fault == AtRename {
        WriterFails(codec, state, pid);
        Perform(Fail(pid));
        return false;
      }
      Perform(Step(pid, spare));
      return false;
    }

    /** A stage is created, then locked; an error past the restriction of its permission removes what was created. */
    method BeginStage(pid: Pid, place: Place, id: DumpId, dir: nat, inode: nat, spare: nat, fault: BeginFault)
      requires Valid() && pid !in state.procs && id !in state.disk.home
      requires Unused(state.disk, dir) && Unused(state.disk, inode) && Unused(state.disk, spare)
      requires dir != inode && inode != spare && dir != spare
      modifies this
      ensures Valid()
      ensures fault.Smooth? ==>
                state == old(state).At(pid, Writer(place, id, MakeDump(inode)))
                 .On(Began(old(state).disk, place, id, dir, Some(inode)))
      ensures !fault.Smooth? ==> Abandoned(old(state), state, Path(place, Staged(id)), fault.LeavesStage())
    {
      hide Next, Enabled, Inv, ArtifactProtocol.Valid, Run, Began;
      NobodyHoldsUnused(codec, state, history, inode);
      NameIsNew(codec, state, history, Path(place, Staged(id)));
      Begins(codec, state, pid, place, id, dir, inode, spare);
      ghost var s := state;
      Perform(Spawn(pid, Writer(place, id, MakeDir)));
      if fault.AtMakeDir? {
        FailsToMake(codec, s, pid, place, id);
        Perform(Fail(pid));
        return;
      }
      Perform(Step(pid, dir));
      if fault.AtRestrict? {
        StopsHere(codec, s, pid, place, id, dir);
        Perform(Crash(pid));
        return;
      }
      if fault.AtOpenLock? {
        StageIsThere(s.disk, place, id, dir, None, spare);
        GiveUp(pid, spare, fault.cleanup);
        StageGone(s, state, pid, Writer(place, id, OpenLock), dir, None, fault.cleanup);
        return;
      }
      Perform(Step(pid, inode));
      if fault.AtTakeLock? {
        StageIsThere(s.disk, place, id, dir, Some(inode), spare);
        GiveUp(pid, spare, fault.cleanup);
        StageGone(s, state, pid, Writer(place, id, TakeLock(inode)), dir, Some(inode), fault.cleanup);
        return;
      }
      Perform(Step(pid, spare));
    }

    /** An error while the lock of a new stage is opened or taken, and the removal of the stage. */
    method GiveUp(pid: Pid, spare: nat, cleanup: Removal)
      requires Valid() && pid in state.procs && state.procs[pid].Writer?
      requires state.procs[pid].w.OpenLock? || state.procs[pid].w.TakeLock?
      requires state.disk.Has(state.procs[pid].Target()) && Unused(state.disk, spare)
      modifies this
      ensures Valid() && Dropped(old(state), state, pid, cleanup)
    {
      hide Next, Enabled, Inv, ArtifactProtocol.Valid, Run;
      OneDirectoryPerName(codec, state, history, state.procs[pid].Target());
      FailsToLock(codec, state, pid);
      Perform(Fail(pid));
      WriterSteps(codec, state, pid, spare);
      Perform(Step(pid, spare));
      Purge(pid, spare, cleanup);
    }

    /**
     Prune and sweep remove a directory only after renaming it away under the exclusive lock; a
     locked directory stays, and so does everything else. An I/O error leaves the name alone, or
     the directory under its isolated name.
     */
    method IsolateAndRemove(pid: Pid, victim: Path, inode: nat, tag: nat, spare: nat, fault: RemovalFault)
      returns (outcome: RemovalOutcome)
      requires Valid() && pid !in state.procs && Removable(victim.entry)
      requires Unused(state.disk, inode) && Unused(state.disk, tag) && Unused(state.disk, spare)
      requires inode != tag && tag != spare && inode != spare
      modifies this
      ensures Valid() && Isolates(old(state), state, victim, tag, fault, outcome)
    {
      hide Next, Enabled, Inv, ArtifactProtocol.Valid, Run;
      OneDirectoryPerName(codec, state, history, victim);
      UnusedAfterLock(state.disk, victim, inode, tag);
      UnusedAfterLock(state.disk, victim, inode, spare);
      var early := LockVictim(pid, victim, inode, tag, fault);
      if early.Some? {
        return early.value;
      }
      outcome := RemoveLocked(pid, victim, tag, spare, fault);
      assert state.procs == old(state.procs);
    }

    /** The rename and the removal, under the exclusive lock. */
    method RemoveLocked(pid: Pid, victim: Path, tag: nat, spare: nat, fault: RemovalFault)
      returns (outcome: RemovalOutcome)
      requires Valid() && pid in state.procs && state.procs[pid].Remover? && state.procs[pid].victim == victim
      requires state.procs[pid].r.RenameTarget? && state.disk.Has(victim)
      requires Unused(state.disk, tag) && Unused(state.disk, spare) && tag != spare
      modifies this
      ensures Valid() && state.procs == old(state.procs) - {pid}
      ensures outcome == if fault.AtIsolate? || fault.AtRemove? then Failed else Removed
      ensures state.disk.fs == if outcome.Removed? then old(state.disk.fs) - {victim}
                               else if fault.AtRemove? then IsolatedNames(old(state.disk.fs), victim, tag)
                               else old(state.disk.fs)
      ensures fault.AtRemove? ==>
                var isolated := Path(victim.place, Isolated(victim.entry, tag));
                state.disk.Has(isolated)
                && state.disk.Look(isolated) == Stripped(old(state.disk.Look(victim)), fault.files)
      ensures forall path | old(state.disk.Has(path)) && path != victim ::
                state.disk.Has(path) && state.disk.Look(path) == old(state.disk.Look(path))
    {
      hide Next, Enabled, Inv, ArtifactProtocol.Valid, Run;
      OneDirectoryPerName(codec, state, history, victim);
      if fault.AtIsolate? {
        RemoverEnds(codec, state, pid);
        Perform(Fail(pid));
        return Failed;
      }
      ghost var isolated := Path(victim.place, Isolated(victim.entry, tag));
      assert isolated !in state.disk.fs;
      RemoverIsolates(codec, state, pid, victim, tag, spare);
      Perform(Step(pid, tag));
      Perform(Step(pid, spare));
      Perform(Step(pid, spare));
      Purge(pid, spare, if fault.AtRemove? then Cut(fault.files) else Whole);
      return if fault.AtRemove? then Failed else Removed;
    }
  }

  /** The process is gone, its stage too or what is left of it, and everything else is as it was. */
  ghost predicate Dropped(s: State, t: State, pid: Pid, removal: Removal)
    requires pid in s.procs && s.disk.Has(s.procs[pid].Target())
  {
    var stage := s.procs[pid].Target();
    && t.procs == s.procs - {pid}
    && t.disk.fs == (if removal.Whole? then s.disk.fs - {stage} else s.disk.fs)
    && (forall path | s.disk.Has(path) && path != stage :: t.disk.Has(path) && t.disk.Look(path) == s.disk.Look(path))
    && (forall d | d in s.disk.dirs && d != s.disk.fs[stage] :: d in t.disk.dirs && t.disk.dirs[d] == s.disk.dirs[d])
    && (removal.Cut? ==> t.disk.Has(stage) && t.disk.Look(stage) == Stripped(s.disk.Look(stage), removal.files))
  }

  /** A `begin` that failed: no process, at most an empty unlocked stage, and everything else as it was. */
  ghost predicate Abandoned(s: State, t: State, stage: Path, left: bool) {
    && t.procs == s.procs
    && stage !in s.disk.fs && t.disk.fs.Keys == s.disk.fs.Keys + (if left then {stage} else {})
    && (forall path | path in s.disk.fs :: t.disk.fs[path] == s.disk.fs[path])
    && (forall d | d in s.disk.dirs :: d in t.disk.dirs && t.disk.dirs[d] == s.disk.dirs[d])
    && (left ==>
          && t.disk.Has(stage) && t.disk.Look(stage) == Dir(t.disk.Look(stage).lock, None, None, None)
          && !LockTaken(t, stage))
  }

  function IsolatedNames(fs: map<Path, DirId>, victim: Path, tag: nat): map<Path, DirId>
    requires victim in fs
  {
    (fs - {victim})[Path(victim.place, Isolated(victim.entry, tag)) := fs[victim]]
  }

  lemma RemoverEnds(codec: Codec, s: State, pid: Pid)
    requires pid in s.procs && s.procs[pid].Remover?
    ensures Enabled(codec, s, Fail(pid)) && Next(s, Fail(pid)) == s.End(pid)
  {
  }

  /** What `isolate_and_remove` does to the cache: the outcome, the names, and everybody else's files. */
  ghost predicate Isolates(s: State, t: State, victim: Path, tag: nat, fault: RemovalFault, outcome: RemovalOutcome) {
    && outcome == (if fault.AtOpen? then Failed
                   else if !s.disk.Has(victim) then Gone
                   else if fault.AtLock? then Failed
                   else if LockTaken(s, victim) then Locked
                   else if fault.AtIsolate? || fault.AtRemove? then Failed
                   else Removed)
    && t.procs == s.procs
    && (outcome.Gone? || outcome.Locked? ==> t == s)
    && t.disk.fs == (if outcome.Removed? then s.disk.fs - {victim}
                     else if outcome.Failed? && fault.AtRemove? && victim in s.disk.fs
                     then IsolatedNames(s.disk.fs, victim, tag)
                     else s.disk.fs)
    && (outcome.Failed? && fault.AtRemove? && s.disk.Has(victim) ==>
          var isolated := Path(victim.place, Isolated(victim.entry, tag));
          && t.disk.Has(isolated)
          && var left := t.disk.Look(isolated);
             left == Stripped(s.disk.Look(victim).(lock := left.lock), fault.files))
    && (forall path | s.disk.Has(path) && path != victim :: t.disk.Has(path) && t.disk.Look(path) == s.disk.Look(path))
  }

  /** The disk after a successful `publish`: same directory and dump, new name, metadata in place. */
  function PublishedDisk(disk: Disk, writer: Proc, meta: Metadata): Disk
    requires writer.Writer? && disk.Has(writer.Target())
  {
    disk.Put(disk.fs[writer.Target()], disk.Look(writer.Target()).(draft := None, metadata := Some(meta)))
        .Move(writer.Target(), Path(writer.place, Complete(writer.id)))
  }

  function Contents(disk: Disk, path: Path, draft: Option<Metadata>, metadata: Option<Metadata>): Disk
    requires disk.Has(path)
  {
    disk.Put(disk.fs[path], disk.Look(path).(draft := draft, metadata := metadata))
  }

  /** The four calls of `publish` after the size check was passed on. */
  lemma Publishes(codec: Codec, s: State, pid: Pid, spare: nat)
    requires pid in s.procs && s.procs[pid].Writer? && s.procs[pid].w.CheckSize? && Unused(s.disk, spare)
    requires var proc := s.procs[pid];
             && s.disk.Has(proc.Target()) && Path(proc.place, Complete(proc.id)) !in s.disk.fs
             && s.disk.Look(proc.Target()).dump.Some?
                && |s.disk.Look(proc.Target()).dump.value| == proc.w.meta.compressedBytes
             && s.disk.Look(proc.Target()).draft.None?
    ensures var proc := s.procs[pid];
            var fd, meta, stage := proc.w.fd, proc.w.meta, proc.Target();
            var s1 := s.At(pid, proc.(w := WriteDraft(fd, meta)));
            var s2 :=
              s.At(pid, proc.(w := FinalizeDraft(fd, meta)))
               .On(Contents(s.disk, stage, Some(meta), s.disk.Look(stage).metadata));
            var s3 := s.At(pid, proc.(w := RenameStage(fd, meta))).On(Contents(s.disk, stage, None, Some(meta)));
            && Enabled(codec, s, Step(pid, spare)) && Next(s, Step(pid, spare)) == s1
            && Enabled(codec, s1, Step(pid, spare)) && Next(s1, Step(pid, spare)) == s2
            && Enabled(codec, s2, Step(pid, spare)) && Next(s2, Step(pid, spare)) == s3
            && Enabled(codec, s3, Step(pid, spare))
            && Next(s3, Step(pid, spare)) == s.At(pid, proc.(w := ReleaseLock(fd)))
                .On(PublishedDisk(s.disk, proc, meta))
  {
    hide Next, Enabled;
    var proc := s.procs[pid];
    var fd, meta, stage := proc.w.fd, proc.w.meta, proc.Target();
    var s1 := s.At(pid, proc.(w := WriteDraft(fd, meta)));
    var s2 :=
      s.At(pid, proc.(w := FinalizeDraft(fd, meta)))
       .On(Contents(s.disk, stage, Some(meta), s.disk.Look(stage).metadata));
    var s3 := s.At(pid, proc.(w := RenameStage(fd, meta))).On(Contents(s.disk, stage, None, Some(meta)));
    WriterSteps(codec, s, pid, spare);
    WriterSteps(codec, s1, pid, spare);
    WriterSteps(codec, s2, pid, spare);
    WriterSteps(codec, s3, pid, spare);
  }

  lemma WriterFails(codec: Codec, s: State, pid: Pid)
    requires pid in s.procs && (s.procs[pid].Filling() || (s.procs[pid].Writer? && s.procs[pid].w.MakeDump?))
    ensures Enabled(codec, s, Fail(pid))
    ensures Next(s, Fail(pid)) == s.At(pid, s.procs[pid].(w := Discard(s.procs[pid].w.fd)))
  {
  }

  /** The stage of the writer has a dump file. */
  predicate Sized(disk: Disk, proc: Proc) {
    disk.Has(proc.Target()) && disk.Look(proc.Target()).dump.Some?
  }

  lemma SizeIsRefused(codec: Codec, s: State, pid: Pid, spare: nat)
    requires pid in s.procs && s.procs[pid].Writer? && s.procs[pid].w.CheckSize? && Unused(s.disk, spare)
    requires Sized(s.disk, s.procs[pid])
    requires |s.disk.Look(s.procs[pid].Target()).dump.value| != s.procs[pid].w.meta.compressedBytes
    ensures Enabled(codec, s, Step(pid, spare))
    ensures Next(s, Step(pid, spare)) == s.At(pid, s.procs[pid].(w := Discard(s.procs[pid].w.fd)))
  {
  }

  lemma SubmittedStage(codec: Codec, s: State, history: seq<Action>, pid: Pid)
    requires Valid(codec, INITIAL, history) && Run(INITIAL, history) == s
    requires pid in s.procs && s.procs[pid].Writer? && s.procs[pid].w.CheckSize?
    ensures var proc := s.procs[pid];
            && s.disk.Has(proc.Target()) && Path(proc.place, Complete(proc.id)) !in s.disk.fs
            && Sized(s.disk, proc) && s.disk.Look(proc.Target()).draft.None?
  {
    RunKeeps(codec, INITIAL, history);
    assert Alone(codec, s.disk, s.procs[pid]);
  }

  datatype StoreError = MetadataIdentityMismatch | MetadataContentMismatch | CompressedSizeMismatch | IoError

  /** Where `publish` meets an I/O error, if anywhere. */
  datatype PublishFault = NoFault | AtSize | AtDraft | AtFinalize | AtRename | AtParentSync

  class StagedDumpArtifact {
    const disk: CacheDisk
    const pid: Pid
    const place: Place
    const id: DumpId
    var published: bool

    function Stage(): Path {
      Path(place, Staged(id))
    }

    function Final(): Path {
      Path(place, Complete(id))
    }

    ghost predicate In(w: WriterPc)
      reads disk
    {
      pid in disk.state.procs && disk.state.procs[pid] == Writer(place, id, w)
    }

    constructor (disk: CacheDisk, pid: Pid, place: Place, id: DumpId)
      ensures this.disk == disk && this.pid == pid && this.place == place && this.id == id && !published
    {
      this.disk, this.pid, this.place, this.id := disk, pid, place, id;
      published := false;
    }

    /**
     A stage is born locked and empty, before anyone could sweep it. An error leaves no stage, or an empty and
     unlocked one where it was not removed.
     */
    static method Begin(disk: CacheDisk, pid: Pid, place: Place, id: DumpId, dir: nat, inode: nat, spare: nat,
                        fault: BeginFault)
      returns (r: Result<StagedDumpArtifact, StoreError>)
      requires disk.Valid() && pid !in disk.state.procs && id !in disk.state.disk.home
      requires Unused(disk.state.disk, dir) && Unused(disk.state.disk, inode) && Unused(disk.state.disk, spare)
      requires dir != inode && inode != spare && dir != spare
      modifies disk
      ensures disk.Valid()
      ensures r.Ok? <==> fault.Smooth?
      ensures r.Ok? ==>
                && fresh(r.value) && r.value.disk == disk
                && r.value.pid == pid && r.value.place == place && r.value.id == id
                && !r.value.published && r.value.In(MakeDump(inode))
                && disk.state.disk.fs == old(disk.state.disk.fs)[Path(place, Staged(id)) := dir]
                && disk.state.disk.dirs == old(disk.state.disk.dirs)[dir := Dir(Some(inode), None, None, None)]
                && disk.state.procs == old(disk.state.procs)[pid := Writer(place, id, MakeDump(inode))]
      ensures r.Err? ==>
                r.error.IoError?
                && Abandoned(old(disk.state), disk.state, Path(place, Staged(id)), fault.LeavesStage())
    {
      disk.BeginStage(pid, place, id, dir, inode, spare, fault);
      if !fault.Smooth? {
        return Err(IoError);
      }
      var staged := new StagedDumpArtifact(disk, pid, place, id);
      return Ok(staged);
    }

    /**
     Creates the dump file inside the stage; the returned handle is the directory's. After an error, which may
     leave an empty dump file, only `Drop` is left.
     */
    method CreateDumpWriter(fd: Inode, spare: nat, fault: DumpFault) returns (dir: Option<DirId>)
      requires disk.Valid() && In(MakeDump(fd)) && Unused(disk.state.disk, spare)
      requires disk.state.disk.Has(Stage()) && disk.state.disk.Look(Stage()).dump.None?
      modifies disk
      ensures disk.Valid() && (dir.Some? <==> fault.Flawless?)
      ensures dir.Some? ==> dir.value == old(disk.state.disk.fs[Stage()]) && In(Compress(fd, dir.value))
      ensures dir.None? ==> In(Discard(fd))
      ensures disk.state.disk ==
              if fault.AtCreate? then old(disk.state.disk)
              else old(disk.state.disk).Put(old(disk.state.disk.fs[Stage()]),
                                            old(disk.state.disk.Look(Stage())).(dump := Some([])))
    {
      hide Next, Enabled, Inv, ArtifactProtocol.Valid, Run;
      if fault.AtCreate? {
        WriterFails(disk.codec, disk.state, pid);
        disk.Perform(Fail(pid));
        return None;
      }
      WriterSteps(disk.codec, disk.state, pid, spare);
      dir := Some(disk.state.disk.fs[Stage()]);
      disk.Perform(ArtifactProtocol.Step(pid, spare));
      if fault.AtFilePermission? {
        WriterFails(disk.codec, disk.state, pid);
        disk.Perform(Fail(pid));
        return None;
      }
    }

    /**
     Dropping a stage that was not published unlocks and removes it, and nothing else; if the removal fails,
     what it did not take stays.
     */
    method Drop(spare: nat, removal: Removal)
      requires disk.Valid() && !published && Unused(disk.state.disk, spare)
      requires pid in disk.state.procs && disk.state.procs[pid].Writer?
      requires disk.state.procs[pid].place == place && disk.state.procs[pid].id == id
      requires disk.state.procs[pid].Filling() || disk.state.procs[pid].w.MakeDump? || disk.state.procs[pid].w.Discard?
      requires disk.state.disk.Has(Stage())
      modifies disk
      ensures disk.Valid() && Dropped(old(disk.state), disk.state, pid, removal)
    {
      hide Next, Enabled, Inv, ArtifactProtocol.Valid, Run;
      if !disk.state.procs[pid].w.Discard? {
        WriterFails(disk.codec, disk.state, pid);
        disk.Perform(Fail(pid));
      }
      disk.DropStage(pid, spare, removal);
    }

    /** The size of the dump file the writer has open. */
    ghost function DumpSize(s: State): int
      requires pid in s.procs && s.procs[pid].Writer? && s.procs[pid].w.Compress?
    {
      var dir := s.procs[pid].w.dir;
      if dir in s.disk.dirs && s.disk.dirs[dir].dump.Some? then |s.disk.dirs[dir].dump.value| else -1
    }

    /**
     Publishes what one compression wrote, or nothing: metadata of another dump or of another
     compression is refused, and every error before the rename removes the stage, as far as it can be
     removed. An error while syncing the parent comes after the rename, so the artifact is visible although
     the call failed.
     */
    method Publish(input: Bytes, metrics: CompressionMetrics, meta: Metadata, fault: PublishFault, spare: nat,
                   removal: Removal)
      returns (r: Result<Path, StoreError>)
      requires disk.Valid() && !published && pid in disk.state.procs && disk.state.procs[pid].Writer?
      requires disk.state.procs[pid].place == place && disk.state.procs[pid].id == id
      requires Compressed(disk.codec, disk.state.disk, disk.state.procs[pid], input, metrics)
               && Unused(disk.state.disk, spare)
      modifies this, disk
      ensures disk.Valid() && disk.state.procs == old(disk.state.procs) - {pid}
      ensures r == Err(MetadataIdentityMismatch) <==> meta.dumpId != id || meta.place != place
      ensures r == Err(MetadataContentMismatch) <==>
                meta.dumpId == id && meta.place == place && !MatchesMetrics(meta, metrics)
      ensures r == Err(CompressedSizeMismatch) <==>
                && meta.dumpId == id && meta.place == place && MatchesMetrics(meta, metrics) && fault != AtSize
                && old(DumpSize(disk.state)) != meta.compressedBytes
      ensures r.Ok? <==>
                && meta.dumpId == id && meta.place == place && MatchesMetrics(meta, metrics)
                && old(DumpSize(disk.state)) == meta.compressedBytes && fault == NoFault
      ensures r.Ok? ==> r.value == Final()
      ensures published <==> r.Ok? || (r == Err(IoError) && fault == AtParentSync)
      ensures published ==>
                meta.dumpId == id && meta.place == place
                && old(DumpSize(disk.state)) == meta.compressedBytes == metrics.compressedBytes
      ensures published ==>
                old(disk.state.disk.Has(Stage()))
                && disk.state.disk == PublishedDisk(old(disk.state.disk), old(disk.state.procs[pid]), meta)
      ensures !published ==>
                disk.state.disk.fs == if removal.Whole? then old(disk.state.disk.fs) - {Stage()}
                                      else old(disk.state.disk.fs)
      ensures forall path | old(disk.state.disk.Has(path)) && path != Stage() ::
                disk.state.disk.Has(path) && disk.state.disk.Look(path) == old(disk.state.disk.Look(path))
    {
      hide Next, Enabled, Inv, ArtifactProtocol.Valid, Run, Records, Describes;
      StageIsNamed(disk.codec, disk.state, disk.history, pid);
      OneDirectoryPerName(disk.codec, disk.state, disk.history, Stage());
      disk.SubmitMetadata(pid, input, metrics, meta);
      if disk.state.procs[pid].w.Discard? {
        disk.DropStage(pid, spare, removal);
        return Err(if meta.dumpId != id || meta.place != place then MetadataIdentityMismatch
          else MetadataContentMismatch);
      }
      var sizeDiffers := disk.WritePublication(pid, meta, fault, spare);
      if disk.state.procs[pid].w.Discard? {
        disk.DropStage(pid, spare, removal);
        return Err(if sizeDiffers then CompressedSizeMismatch else IoError);
      }
      published := true;
      WriterSteps(disk.codec, disk.state, pid, spare);
      disk.Perform(ArtifactProtocol.Step(pid, spare));
      return if fault == AtParentSync then Err(IoError) else Ok(Final());
    }
  }

  predicate MatchesMetrics(meta: Metadata, metrics: CompressionMetrics) {
    && meta.uncompressedBytes == metrics.inputBytes
    && meta.compressedBytes == metrics.compressedBytes
    && meta.sqlSha256 == metrics.inputSha256
    && meta.artifactSha256 == metrics.compressedSha256
  }

  lemma StageIsNamed(codec: Codec, s: State, history: seq<Action>, pid: Pid)
    requires Valid(codec, INITIAL, history) && Run(INITIAL, history) == s
    requires pid in s.procs && s.procs[pid].Filling()
    ensures s.disk.Has(s.procs[pid].Target()) && Path(s.procs[pid].place, Complete(s.procs[pid].id)) !in s.disk.fs
    ensures s.procs[pid].w.Compress? ==> s.disk.fs[s.procs[pid].Target()] == s.procs[pid].w.dir
  {
    RunKeeps(codec, INITIAL, history);
    assert Alone(codec, s.disk, s.procs[pid]);
  }

  function Began(disk: Disk, place: Place, id: DumpId, dir: DirId, lock: Option<Inode>): Disk {
    Disk(disk.fs[Path(place, Staged(id)) := dir], disk.dirs[dir := Dir(lock, None, None, None)],
         if lock.Some? then disk.inodes + {lock.value} else disk.inodes, disk.home[id := place])
  }

  /** The four calls of `begin`. */
  lemma Begins(codec: Codec, s: State, pid: Pid, place: Place, id: DumpId, dir: nat, inode: nat, spare: nat)
    requires pid !in s.procs && id !in s.disk.home && Path(place, Staged(id)) !in s.disk.fs
    requires Unused(s.disk, dir) && Unused(s.disk, inode) && Unused(s.disk, spare)
    requires dir != inode && inode != spare && dir != spare
    requires forall p | p in s.procs :: !s.procs[p].Holds(inode)
    ensures var s1 := s.At(pid, Writer(place, id, MakeDir)).On(s.disk.(home := s.disk.home[id := place]));
            var s2 := s.At(pid, Writer(place, id, OpenLock)).On(Began(s.disk, place, id, dir, None));
            var s3 := s.At(pid, Writer(place, id, TakeLock(inode))).On(Began(s.disk, place, id, dir, Some(inode)));
            var s4 := s.At(pid, Writer(place, id, MakeDump(inode))).On(Began(s.disk, place, id, dir, Some(inode)));
            && Enabled(codec, s, Spawn(pid, Writer(place, id, MakeDir)))
               && Next(s, Spawn(pid, Writer(place, id, MakeDir))) == s1
            && Enabled(codec, s1, Step(pid, dir)) && Next(s1, Step(pid, dir)) == s2
            && Enabled(codec, s2, Step(pid, inode)) && Next(s2, Step(pid, inode)) == s3
            && Enabled(codec, s3, Step(pid, spare)) && Next(s3, Step(pid, spare)) == s4
  {
    hide Next, Enabled, WriterStep;
    SpawnWriter(codec, s, pid, place, id);
    BeginMakes(codec, s, pid, place, id, dir);
    BeginOpens(codec, s, pid, place, id, dir, inode);
    BeginLocks(codec, s, pid, place, id, dir, inode, spare);
  }

  lemma BeginMakes(codec: Codec, s: State, pid: Pid, place: Place, id: DumpId, dir: nat)
    requires Path(place, Staged(id)) !in s.disk.fs && Unused(s.disk, dir)
    ensures var s1 := s.At(pid, Writer(place, id, MakeDir)).On(s.disk.(home := s.disk.home[id := place]));
            && Enabled(codec, s1, Step(pid, dir))
            && Next(s1, Step(pid, dir)) == s.At(pid, Writer(place, id, OpenLock))
                .On(Began(s.disk, place, id, dir, None))
  {
    hide Next, Enabled;
    WriterSteps(codec, s.At(pid, Writer(place, id, MakeDir)).On(s.disk.(home := s.disk.home[id := place])), pid, dir);
  }

  lemma BeginOpens(codec: Codec, s: State, pid: Pid, place: Place, id: DumpId, dir: nat, inode: nat)
    requires Unused(s.disk, inode) && dir != inode
    ensures var s2 := s.At(pid, Writer(place, id, OpenLock)).On(Began(s.disk, place, id, dir, None));
            && Enabled(codec, s2, Step(pid, inode))
            && Next(s2, Step(pid, inode)) == s.At(pid, Writer(place, id, TakeLock(inode)))
                .On(Began(s.disk, place, id, dir, Some(inode)))
  {
    hide Next, Enabled;
    WriterSteps(codec, s.At(pid, Writer(place, id, OpenLock)).On(Began(s.disk, place, id, dir, None)), pid, inode);
  }

  lemma BeginLocks(codec: Codec, s: State, pid: Pid, place: Place, id: DumpId, dir: nat, inode: nat, spare: nat)
    requires pid !in s.procs && Unused(s.disk, spare) && spare != dir && spare != inode
    requires forall p | p in s.procs :: !s.procs[p].Holds(inode)
    ensures var s3 := s.At(pid, Writer(place, id, TakeLock(inode))).On(Began(s.disk, place, id, dir, Some(inode)));
            && Enabled(codec, s3, Step(pid, spare))
            && Next(s3, Step(pid, spare)) == s.At(pid, Writer(place, id, MakeDump(inode)))
                .On(Began(s.disk, place, id, dir, Some(inode)))
  {
    hide Next, Enabled;
    var s3 := s.At(pid, Writer(place, id, TakeLock(inode))).On(Began(s.disk, place, id, dir, Some(inode)));
    WriterSteps(codec, s3, pid, spare);
    assert s3.FreeForExclusive(pid, inode);
  }

  lemma SpawnWriter(codec: Codec, s: State, pid: Pid, place: Place, id: DumpId)
    requires pid !in s.procs && id !in s.disk.home
    ensures Enabled(codec, s, Spawn(pid, Writer(place, id, MakeDir)))
    ensures Next(s, Spawn(pid, Writer(place, id, MakeDir))) == s.At(pid, Writer(place, id, MakeDir))
             .On(s.disk.(home := s.disk.home[id := place]))
  {
  }

  lemma WriterSteps(codec: Codec, s: State, pid: Pid, unused: nat)
    requires pid in s.procs && s.procs[pid].Writer? && Unused(s.disk, unused)
    requires !s.procs[pid].w.Compress? && !s.procs[pid].w.CheckMetadata? && !s.procs[pid].w.PurgeStage?
    ensures Enabled(codec, s, Step(pid, unused))
    ensures Next(s, Step(pid, unused)) == WriterStep(s, pid, s.procs[pid], unused)
  {
  }

  lemma NameIsNew(codec: Codec, s: State, history: seq<Action>, path: Path)
    requires Valid(codec, INITIAL, history) && Run(INITIAL, history) == s && BaseId(path.entry) !in s.disk.home
    ensures path !in s.disk.fs
  {
    RunKeeps(codec, INITIAL, history);
    assert path in s.disk.fs ==> PathOk(codec, s.disk, path);
  }

  predicate LockTaken(s: State, path: Path)
    requires s.disk.Has(path)
  {
    s.disk.Look(path).lock.Some? && exists pid :: pid in s.procs && s.procs[pid].Holds(s.disk.Look(path).lock.value)
  }

  lemma NobodyHoldsUnused(codec: Codec, s: State, history: seq<Action>, n: nat)
    requires Valid(codec, INITIAL, history) && Run(INITIAL, history) == s && n !in s.disk.inodes
    ensures forall pid | pid in s.procs :: !s.procs[pid].Holds(n)
  {
    RunKeeps(codec, INITIAL, history);
    assert forall pid | pid in s.procs :: Alone(codec, s.disk, s.procs[pid]);
  }

  lemma UnusedAfterLock(disk: Disk, path: Path, inode: nat, n: nat)
    requires Unused(disk, n) && n != inode
    ensures disk.Has(path) ==> Unused(disk.WithLock(path, inode), n)
  {
  }

  /** Rename, unlock and resolve: the victim is now only known by its isolated name. */
  lemma RemoverIsolates(codec: Codec, s: State, pid: Pid, victim: Path, tag: nat, spare: nat)
    requires pid in s.procs && s.procs[pid].Remover? && s.procs[pid].victim == victim && s.procs[pid].r.RenameTarget?
    requires s.disk.Has(victim) && Unused(s.disk, tag) && Unused(s.disk, spare) && tag != spare
    ensures var isolated := Path(victim.place, Isolated(victim.entry, tag));
            var renamed := s.On(s.disk.Move(victim, isolated));
            var s1 := renamed.At(pid, Remover(victim, Unlock(s.procs[pid].r.fd, isolated)));
            var s2 := renamed.At(pid, Remover(victim, RemoveIsolated(isolated)));
            && Enabled(codec, s, Step(pid, tag)) && Next(s, Step(pid, tag)) == s1
            && Enabled(codec, s1, Step(pid, spare)) && Next(s1, Step(pid, spare)) == s2
            && Enabled(codec, s2, Step(pid, spare))
            && Next(s2, Step(pid, spare)) ==
                 renamed.At(pid, Remover(victim, PurgeIsolated(isolated, s.disk.fs[victim])))
            && Unused(renamed.disk, spare)
  {
  }

  lemma Unlinks(codec: Codec, s: State, pid: Pid, file: File)
    requires pid in s.procs && s.procs[pid].Purging().Some? && s.procs[pid].Purging().value in s.disk.dirs
    ensures Enabled(codec, s, Unlink(pid, file))
            && Next(s, Unlink(pid, file)) == s.On(Unlinked(s.disk, s.procs[pid], file))
  {
  }

  lemma UnlinksNext(disk: Disk, proc: Proc, files: seq<File>, k: nat)
    requires k < |files| && proc.Purging().Some? && proc.Purging().value in disk.dirs
    ensures var dir := proc.Purging().value;
            Unlinked(disk.Put(dir, Stripped(disk.dirs[dir], files[..k])), proc, files[k]) ==
            disk.Put(dir, Stripped(disk.dirs[dir], files[..k + 1]))
  {
    assert files[..k + 1] == files[..k] + [files[k]];
    var dir := proc.Purging().value;
    assert Unlinked(disk.Put(dir, Stripped(disk.dirs[dir], files[..k])), proc, files[k]).dirs ==
             disk.Put(dir, Stripped(disk.dirs[dir], files[..k + 1])).dirs;
  }

  lemma PurgeEnds(codec: Codec, s: State, pid: Pid, spare: nat)
    requires pid in s.procs && s.procs[pid].Purging().Some? && Unused(s.disk, spare)
    requires s.procs[pid].Purging().value in s.disk.dirs && s.disk.dirs[s.procs[pid].Purging().value].Empty()
    ensures Enabled(codec, s, Step(pid, spare))
    ensures Next(s, Step(pid, spare)) ==
              s.On(s.disk.Unname(s.procs[pid].PurgePath(), s.procs[pid].Purging().value)).End(pid)
  {
  }

  lemma RemoverFails(codec: Codec, s: State, disk: Disk, pid: Pid, proc: Proc)
    requires pid !in s.procs && proc.Remover?
    ensures Enabled(codec, s.At(pid, proc).On(disk), Fail(pid))
    ensures Next(s.At(pid, proc).On(disk), Fail(pid)) == s.On(disk)
  {
    assert s.At(pid, proc).End(pid).procs == s.procs;
  }

  lemma FailsToMake(codec: Codec, s: State, pid: Pid, place: Place, id: DumpId)
    requires pid !in s.procs
    ensures var s1 := s.At(pid, Writer(place, id, MakeDir)).On(s.disk.(home := s.disk.home[id := place]));
            Enabled(codec, s1, Fail(pid)) && Next(s1, Fail(pid)) == s.On(s.disk.(home := s.disk.home[id := place]))
  {
    assert s.At(pid, Writer(place, id, MakeDir)).End(pid).procs == s.procs;
  }

  /** The permission of a new directory cannot be set: the caller returns and leaves it. */
  lemma StopsHere(codec: Codec, s: State, pid: Pid, place: Place, id: DumpId, dir: nat)
    requires pid !in s.procs && Path(place, Staged(id)) !in s.disk.fs && dir !in s.disk.dirs
    ensures var made := s.At(pid, Writer(place, id, OpenLock)).On(Began(s.disk, place, id, dir, None));
            && Enabled(codec, made, Crash(pid)) && Next(made, Crash(pid)) == s.On(Began(s.disk, place, id, dir, None))
    ensures Abandoned(s, s.On(Began(s.disk, place, id, dir, None)), Path(place, Staged(id)), true)
  {
    assert s.At(pid, Writer(place, id, OpenLock)).End(pid).procs == s.procs;
  }

  lemma FailsToLock(codec: Codec, s: State, pid: Pid)
    requires pid in s.procs && s.procs[pid].Writer? && (s.procs[pid].w.OpenLock? || s.procs[pid].w.TakeLock?)
    ensures Enabled(codec, s, Fail(pid)) && Next(s, Fail(pid)) == s.At(pid, s.procs[pid].(w := RemoveStage))
  {
  }

  lemma PurgeFails(codec: Codec, s: State, pid: Pid)
    requires pid in s.procs && s.procs[pid].Purging().Some?
    ensures Enabled(codec, s, Fail(pid)) && Next(s, Fail(pid)) == s.End(pid)
  {
  }

  lemma StageIsThere(disk: Disk, place: Place, id: DumpId, dir: DirId, lock: Option<Inode>, spare: nat)
    requires Unused(disk, spare) && spare != dir && lock != Some(spare)
    ensures Began(disk, place, id, dir, lock).Has(Path(place, Staged(id)))
    ensures Unused(Began(disk, place, id, dir, lock), spare)
  {
  }

  /** What is left when a new stage was given up. */
  lemma StageGone(s: State, t: State, pid: Pid, writer: Proc, dir: DirId, lock: Option<Inode>, cleanup: Removal)
    requires pid !in s.procs && writer.Writer? && writer.Target() !in s.disk.fs && dir !in s.disk.dirs
    requires lock.Some? ==> forall p | p in s.procs :: !s.procs[p].Holds(lock.value)
    requires Dropped(s.At(pid, writer).On(Began(s.disk, writer.place, writer.id, dir, lock)), t, pid, cleanup)
    ensures Abandoned(s, t, writer.Target(), cleanup.Cut?)
  {
    assert s.At(pid, writer).End(pid).procs == s.procs;
    assert Began(s.disk, writer.place, writer.id, dir, lock).fs - {writer.Target()} == s.disk.fs;
  }

  lemma SpawnRemover(codec: Codec, s: State, pid: Pid, victim: Path)
    requires pid !in s.procs && Removable(victim.entry)
    ensures Enabled(codec, s, Spawn(pid, Remover(victim, OpenTarget)))
    ensures Next(s, Spawn(pid, Remover(victim, OpenTarget))) == s.At(pid, Remover(victim, OpenTarget))
  {
  }

  lemma RemoverOpens(codec: Codec, s: State, pid: Pid, victim: Path, inode: nat)
    requires pid !in s.procs && Unused(s.disk, inode)
    ensures Enabled(codec, s.At(pid, Remover(victim, OpenTarget)), Step(pid, inode))
    ensures Next(s.At(pid, Remover(victim, OpenTarget)), Step(pid, inode)) ==
              if s.disk.Has(victim)
              then s.On(s.disk.WithLock(victim, inode))
               .At(pid, Remover(victim, TakeExclusive(s.disk.LockOf(victim, inode))))
              else s
  {
    assert s.At(pid, Remover(victim, OpenTarget)).End(pid) == s;
  }

  lemma RemoverLocks(codec: Codec, s: State, pid: Pid, victim: Path, fd: Inode, tag: nat)
    requires pid !in s.procs && Unused(s.disk, tag)
    ensures var here := s.At(pid, Remover(victim, TakeExclusive(fd)));
            && Enabled(codec, here, Step(pid, tag))
            && Next(here, Step(pid, tag)) ==
                 if (forall p | p in s.procs :: !s.procs[p].Holds(fd))
                   then s.At(pid, Remover(victim, RenameTarget(fd))) else s
  {
    var here := s.At(pid, Remover(victim, TakeExclusive(fd)));
    assert here.End(pid) == s;
    assert forall p | p in s.procs :: here.procs[p] == s.procs[p];
    assert here.FreeForExclusive(pid, fd) <==> forall p | p in s.procs :: !s.procs[p].Holds(fd);
  }

  lemma OneDirectoryPerName(codec: Codec, s: State, history: seq<Action>, victim: Path)
    requires Valid(codec, INITIAL, history) && Run(INITIAL, history) == s
    ensures forall path | path in s.disk.fs && victim in s.disk.fs && path != victim ::
              s.disk.fs[path] != s.disk.fs[victim]
  {
    RunKeeps(codec, INITIAL, history);
    forall path | path in s.disk.fs && victim in s.disk.fs && path != victim
      ensures s.disk.fs[path] != s.disk.fs[victim]
    {
      assert PathsDiffer(s.disk, path, victim);
    }
  }

  lemma Snoc(codec: Codec, s: State, actions: seq<Action>, a: Action)
    requires Valid(codec, s, actions) && Enabled(codec, Run(s, actions), a)
    ensures Valid(codec, s, actions + [a]) && Run(s, actions + [a]) == Next(Run(s, actions), a)
  {
    var t := Run(s, actions);
    assert [a][1..] == [] && Run(t, [a]) == Next(t, a) && Valid(codec, t, [a]);
    RunConcat(codec, s, actions, [a]);
  }
}
