/**
 The life of an artifact directory, `<id>.part` -> `<id>` -> `<id>.deleting-<uuid>` -> gone,
 as a step machine over atomic file-system calls. Any number of writers, removers and readers
 interleave; any of them can crash between two calls, which closes its descriptors and so
 releases its lock.

 A lock belongs to the inode of the lock file a process opened, not to the path it used:
 opening and locking are separate steps, and a rename may fall between them.
 */
module ArtifactProtocol {
  import opened Domain

  /** Names under `profiles/<profile>/<database>`; the module Names ties them to strings. */
  datatype Entry =
    | Staged(id: DumpId)
    | Complete(id: DumpId)
    | Isolated(original: Entry, tag: nat)

  datatype Path = Path(place: Place, entry: Entry)

  type DirId = nat
  type Inode = nat
  type Pid = nat

  /** A directory and its four possible files; the lock file matters only through its inode. */
  datatype Dir = Dir(lock: Option<Inode>, dump: Option<Bytes>, draft: Option<Metadata>, metadata: Option<Metadata>) {
    predicate Empty() {
      lock.None? && dump.None? && draft.None? && metadata.None?
    }
  }

  datatype File = LockFile | DumpFile | DraftFile | MetadataFile

  datatype WriterPc =
    | MakeDir
    | OpenLock
    | TakeLock(fd: Inode)
    | MakeDump(fd: Inode)
    | Compress(fd: Inode, dir: DirId)
    | CheckMetadata(fd: Inode, metrics: CompressionMetrics)
    | CheckSize(fd: Inode, meta: Metadata)
    | WriteDraft(fd: Inode, meta: Metadata)
    | FinalizeDraft(fd: Inode, meta: Metadata)
    | RenameStage(fd: Inode, meta: Metadata)
    | ReleaseLock(fd: Inode)
    | Discard(fd: Inode)
    | RemoveStage
    | PurgeStage(dir: DirId)

  datatype RemoverPc =
    | OpenTarget
    | TakeExclusive(fd: Inode)
    | RenameTarget(fd: Inode)
    | Unlock(fd: Inode, isolated: Path)
    | RemoveIsolated(isolated: Path)
    | PurgeIsolated(isolated: Path, dir: DirId)

  datatype ReaderPc =
    | OpenLease
    | TakeShared(fd: Inode)
    | Confirm(fd: Inode)
    | Using(fd: Inode, dir: DirId, seen: Dir)

  datatype Proc =
    | Writer(place: Place, id: DumpId, w: WriterPc)
    | Remover(victim: Path, r: RemoverPc)
    | Reader(place: Place, id: DumpId, l: ReaderPc)
  {
    /** The path whose lock file the process opens. */
    function Target(): Path {
      match this
      case Writer(place, id, _) => Path(place, Staged(id))
      case Remover(victim, _) => victim
      case Reader(place, id, _) => Path(place, Complete(id))
    }

    /** The lock-file descriptor the process has open, locked or not. */
    function Fd(): Option<Inode> {
      match this
      case Writer(_, _, w) =>
        if w.MakeDir? || w.OpenLock? || w.RemoveStage? || w.PurgeStage? then None else Some(w.fd)
      case Remover(_, r) =>
        if r.TakeExclusive? || r.RenameTarget? || r.Unlock? then Some(r.fd) else None
      case Reader(_, _, l) =>
        if l.OpenLease? then None else Some(l.fd)
    }

    predicate HoldsExclusive(f: Inode) {
      && Fd() == Some(f)
      && match this
         case Writer(_, _, w) => !w.TakeLock?
         case Remover(_, r) => !r.TakeExclusive?
         case Reader(_, _, _) => false
    }

    predicate HoldsShared(f: Inode) {
      Fd() == Some(f) && Reader? && !l.TakeShared?
    }

    predicate Holds(f: Inode) {
      HoldsExclusive(f) || HoldsShared(f)
    }

    /** A writer that may still publish its directory. */
    predicate Staging() {
      Writer? && !w.ReleaseLock? && !w.Discard? && !w.RemoveStage? && !w.PurgeStage?
    }

    /** A writer that owns a dump file and has not yet renamed its directory. */
    predicate Filling() {
      Writer?
      && (w.Compress? || w.CheckMetadata? || w.CheckSize? || w.WriteDraft? || w.FinalizeDraft? || w.RenameStage?)
    }

    /** The directory whose files the process is unlinking. */
    function Purging(): Option<DirId> {
      if Writer? && w.PurgeStage? then Some(w.dir)
      else if Remover? && r.PurgeIsolated? then Some(r.dir)
      else None
    }

    /** The path a purge removes once the directory is empty. */
    function PurgePath(): Path
      requires Purging().Some?
    {
      if Writer? then Target() else r.isolated
    }
  }

  /**
   The file system as everybody sees it. `home` remembers every dump ID ever begun with the place
   it belongs to; `dirs` and `inodes` only grow, so a directory outlives its name for those who
   resolved it earlier.
   */
  datatype Disk = Disk(fs: map<Path, DirId>, dirs: map<DirId, Dir>, inodes: set<Inode>, home: map<DumpId, Place>) {
    /** The path resolves. */
    predicate Has(path: Path) {
      path in fs && fs[path] in dirs
    }

    function Look(path: Path): Dir
      requires Has(path)
    {
      dirs[fs[path]]
    }

    function Put(dir: DirId, contents: Dir): Disk {
      this.(dirs := dirs[dir := contents])
    }

    function Move(source: Path, target: Path): Disk
      requires source in fs
    {
      this.(fs := (fs - {source})[target := fs[source]])
    }

    /** Opening a lock file creates it when the directory has none. */
    function WithLock(path: Path, unused: Inode): Disk
      requires Has(path)
    {
      if Look(path).lock.Some? then this
      else Put(fs[path], Look(path).(lock := Some(unused))).(inodes := inodes + {unused})
    }

    function LockOf(path: Path, unused: Inode): Inode
      requires Has(path)
    {
      if Look(path).lock.Some? then Look(path).lock.value else unused
    }

    /** Removing an empty directory by name; a name that moved on is left alone. */
    function Unname(path: Path, dir: DirId): Disk {
      if path in fs && fs[path] == dir then this.(fs := fs - {path}) else this
    }
  }

  datatype State = State(disk: Disk, procs: map<Pid, Proc>) {
    function On(changed: Disk): State {
      this.(disk := changed)
    }

    function At(pid: Pid, proc: Proc): State {
      this.(procs := procs[pid := proc])
    }

    function End(pid: Pid): State {
      this.(procs := procs - {pid})
    }

    /** Nobody else holds a lock that conflicts with an exclusive one on `f`. */
    predicate FreeForExclusive(pid: Pid, f: Inode) {
      forall other | other in procs && other != pid :: !procs[other].Holds(f)
    }

    predicate FreeForShared(pid: Pid, f: Inode) {
      forall other | other in procs && other != pid :: !procs[other].HoldsExclusive(f)
    }
  }

  const INITIAL := State(Disk(map[], map[], {}, map[]), map[])

  /**
   What may happen next. `Step` is a process's next call with the outcome the state decides and
   `Fail` the same call reporting an I/O error; `Crash` ends the process anywhere. `unused` names
   the directory, inode or UUID a call may have to create.
   */
  datatype Action =
    | Spawn(pid: Pid, proc: Proc)
    | Crash(pid: Pid)
    | Fail(pid: Pid)
    | Step(pid: Pid, unused: nat)
    | Append(pid: Pid, chunk: Bytes)
    | Finish(pid: Pid, input: Bytes, metrics: CompressionMetrics)
    | Submit(pid: Pid, meta: Metadata)
    | Unlink(pid: Pid, file: File)

  /** The sweep targets stages and once-isolated names, prune targets complete ones; nothing targets the rest. */
  predicate Removable(entry: Entry) {
    entry.Isolated? ==> !entry.original.Isolated?
  }

  predicate Initial(s: State, proc: Proc) {
    match proc
    case Writer(_, id, w) => w.MakeDir? && id !in s.disk.home
    case Remover(victim, r) => r.OpenTarget? && Removable(victim.entry)
    case Reader(_, _, l) => l.OpenLease?
  }

  predicate Unused(disk: Disk, n: nat) {
    && n !in disk.dirs
    && n !in disk.inodes
    && forall path | path in disk.fs && path.entry.Isolated? :: path.entry.tag != n
  }

  /**
   What publication relies on: metrics whose size is that of the dump file describe a compression of
   `input` into it. Metrics of any other size are possible, and the size check has to catch them.
   */
  ghost predicate Compressed(codec: Codec, disk: Disk, proc: Proc, input: Bytes, metrics: CompressionMetrics) {
    && proc.Writer? && proc.w.Compress?
    && proc.w.dir in disk.dirs
    && disk.dirs[proc.w.dir].dump.Some?
    && (|disk.dirs[proc.w.dir].dump.value| == metrics.compressedBytes ==>
          Describes(codec, metrics, input, disk.dirs[proc.w.dir].dump.value))
  }

  ghost predicate Enabled(codec: Codec, s: State, a: Action) {
    match a
    case Spawn(pid, proc) => pid !in s.procs && Initial(s, proc)
    case _ => a.pid in s.procs && Ready(codec, s, s.procs[a.pid], a)
  }

  ghost predicate Ready(codec: Codec, s: State, proc: Proc, a: Action) {
    match a
    case Spawn(_, _) => false
    case Crash(_) => true
    case Fail(_) => true
    case Step(_, unused) =>
      && Unused(s.disk, unused)
      && !(proc.Writer? && (proc.w.Compress? || proc.w.CheckMetadata?))
      && (proc.Purging().Some? ==> proc.Purging().value in s.disk.dirs && s.disk.dirs[proc.Purging().value].Empty())
    case Append(_, _) => proc.Writer? && proc.w.Compress?
    case Finish(_, input, metrics) => Compressed(codec, s.disk, proc, input, metrics)
    case Submit(_, _) => proc.Writer? && proc.w.CheckMetadata?
    case Unlink(_, _) => proc.Purging().Some?
  }

  /** One action; total, so that `Enabled` alone says which actions are real. */
  function Next(s: State, a: Action): State {
    if a.Spawn? then
      var born := s.At(a.pid, a.proc);
      if a.proc.Writer? then born.On(s.disk.(home := s.disk.home[a.proc.id := a.proc.place])) else born
    else if a.pid !in s.procs then s
    else
      var proc := s.procs[a.pid];
      match a
      case Crash(pid) => s.End(pid)
      case Fail(pid) => Failed(s, pid, proc)
      case Step(pid, unused) =>
        (match proc
         case Writer(_, _, _) => WriterStep(s, pid, proc, unused)
         case Remover(_, _) => RemoverStep(s, pid, proc, unused)
         case Reader(_, _, _) => ReaderStep(s, pid, proc, unused))
      case Append(_, chunk) => s.On(Appended(s.disk, proc, chunk))
      case Finish(pid, _, metrics) =>
        if proc.Writer? && proc.w.Compress? then s.At(pid, proc.(w := CheckMetadata(proc.w.fd, metrics))) else s
      case Submit(pid, meta) => if proc.Writer? && proc.w.CheckMetadata? then s.At(pid, Submitted(proc, meta)) else s
      case Unlink(_, file) => s.On(Unlinked(s.disk, proc, file))
  }

  /** An error drops whatever the process owned; a stage that was never published is removed. */
  function Failed(s: State, pid: Pid, proc: Proc): State {
    if !proc.Writer? then s.End(pid)
    else if proc.w.OpenLock? || proc.w.TakeLock? then s.At(pid, proc.(w := RemoveStage))
    else if proc.w.MakeDump? || proc.Filling() then s.At(pid, proc.(w := Discard(proc.w.fd)))
    else s.End(pid)
  }

  function WriterStep(s: State, pid: Pid, proc: Proc, unused: nat): State
    requires proc.Writer?
  {
    var stage := proc.Target();
    var disk := s.disk;
    match proc.w
    case MakeDir =>
      if stage in disk.fs then s.End(pid)
      else
        s.On(disk.(fs := disk.fs[stage := unused]).Put(unused, Dir(None, None, None, None)))
         .At(pid, proc.(w := OpenLock))
    case OpenLock =>
      if !disk.Has(stage) then s.At(pid, proc.(w := RemoveStage))
      else s.On(disk.WithLock(stage, unused)).At(pid, proc.(w := TakeLock(disk.LockOf(stage, unused))))
    case TakeLock(fd) =>
      if s.FreeForExclusive(pid, fd) then s.At(pid, proc.(w := MakeDump(fd)))
      else s.At(pid, proc.(w := RemoveStage))
    case MakeDump(fd) =>
      if !disk.Has(stage) || disk.Look(stage).dump.Some? then s.At(pid, proc.(w := Discard(fd)))
      else
        s.On(disk.Put(disk.fs[stage], disk.Look(stage).(dump := Some([]))))
         .At(pid, proc.(w := Compress(fd, disk.fs[stage])))
    case CheckSize(fd, meta) =>
      if disk.Has(stage) && disk.Look(stage).dump.Some? && |disk.Look(stage).dump.value| == meta.compressedBytes
      then s.At(pid, proc.(w := WriteDraft(fd, meta)))
      else s.At(pid, proc.(w := Discard(fd)))
    case WriteDraft(fd, meta) =>
      if !disk.Has(stage) || disk.Look(stage).draft.Some? then s.At(pid, proc.(w := Discard(fd)))
      else
        s.On(disk.Put(disk.fs[stage], disk.Look(stage).(draft := Some(meta))))
         .At(pid, proc.(w := FinalizeDraft(fd, meta)))
    case FinalizeDraft(fd, meta) =>
      if !disk.Has(stage) || disk.Look(stage).draft.None? then s.At(pid, proc.(w := Discard(fd)))
      else
        s.On(disk.Put(disk.fs[stage], disk.Look(stage).(draft := None, metadata := disk.Look(stage).draft)))
         .At(pid, proc.(w := RenameStage(fd, meta)))
    case RenameStage(fd, _) =>
      var complete := Path(proc.place, Complete(proc.id));
      if !disk.Has(stage) || complete in disk.fs then s.At(pid, proc.(w := Discard(fd)))
      else s.On(disk.Move(stage, complete)).At(pid, proc.(w := ReleaseLock(fd)))
    case Discard(_) => s.At(pid, proc.(w := RemoveStage))
    case RemoveStage => if disk.Has(stage) then s.At(pid, proc.(w := PurgeStage(disk.fs[stage]))) else s.End(pid)
    case PurgeStage(dir) => s.On(disk.Unname(stage, dir)).End(pid)
    case ReleaseLock(_) => s.End(pid)
    case _ => s
  }

  function RemoverStep(s: State, pid: Pid, proc: Proc, unused: nat): State
    requires proc.Remover?
  {
    var victim := proc.victim;
    var disk := s.disk;
    match proc.r
    case OpenTarget =>
      if !disk.Has(victim) then s.End(pid)
      else s.On(disk.WithLock(victim, unused)).At(pid, proc.(r := TakeExclusive(disk.LockOf(victim, unused))))
    case TakeExclusive(fd) =>
      if s.FreeForExclusive(pid, fd) then s.At(pid, proc.(r := RenameTarget(fd))) else s.End(pid)
    case RenameTarget(fd) =>
      var isolated := Path(victim.place, Isolated(victim.entry, unused));
      if !disk.Has(victim) then s.End(pid)
      else s.On(disk.Move(victim, isolated)).At(pid, proc.(r := Unlock(fd, isolated)))
    case Unlock(_, isolated) => s.At(pid, proc.(r := RemoveIsolated(isolated)))
    case RemoveIsolated(isolated) =>
      if disk.Has(isolated) then s.At(pid, proc.(r := PurgeIsolated(isolated, disk.fs[isolated]))) else s.End(pid)
    case PurgeIsolated(isolated, dir) => s.On(disk.Unname(isolated, dir)).End(pid)
  }

  function ReaderStep(s: State, pid: Pid, proc: Proc, unused: nat): State
    requires proc.Reader?
  {
    var complete := proc.Target();
    var disk := s.disk;
    match proc.l
    case OpenLease =>
      if !disk.Has(complete) then s.End(pid)
      else s.On(disk.WithLock(complete, unused)).At(pid, proc.(l := TakeShared(disk.LockOf(complete, unused))))
    case TakeShared(fd) =>
      if s.FreeForShared(pid, fd) then s.At(pid, proc.(l := Confirm(fd))) else s.End(pid)
    case Confirm(fd) =>
      if disk.Has(complete) && disk.Look(complete).metadata.Some?
      then s.At(pid, proc.(l := Using(fd, disk.fs[complete], disk.Look(complete))))
      else s.End(pid)
    case Using(_, _, _) => s.End(pid)
  }

  function Appended(disk: Disk, proc: Proc, chunk: Bytes): Disk {
    if proc.Writer? && proc.w.Compress? && proc.w.dir in disk.dirs && disk.dirs[proc.w.dir].dump.Some? then
      disk.Put(proc.w.dir, disk.dirs[proc.w.dir].(dump := Some(disk.dirs[proc.w.dir].dump.value + chunk)))
    else disk
  }

  /** `publish` refuses metadata of another dump and metadata that differs from the compression result. */
  function Submitted(proc: Proc, meta: Metadata): Proc
    requires proc.Writer? && proc.w.CheckMetadata?
  {
    if meta.dumpId != proc.id || meta.place != proc.place then proc.(w := Discard(proc.w.fd))
    else if
      || meta.uncompressedBytes != proc.w.metrics.inputBytes
      || meta.compressedBytes != proc.w.metrics.compressedBytes
      || meta.sqlSha256 != proc.w.metrics.inputSha256
      || meta.artifactSha256 != proc.w.metrics.compressedSha256
    then proc.(w := Discard(proc.w.fd))
    else proc.(w := CheckSize(proc.w.fd, meta))
  }

  /** Recursive removal works on the directory it resolved, wherever that directory is named now. */
  function Unlinked(disk: Disk, proc: Proc, file: File): Disk {
    if proc.Purging().None? || proc.Purging().value !in disk.dirs then disk
    else
      var dir := proc.Purging().value;
      var contents := disk.dirs[dir];
      match file
      case LockFile => disk.Put(dir, contents.(lock := None))
      case DumpFile => disk.Put(dir, contents.(dump := None))
      case DraftFile => disk.Put(dir, contents.(draft := None))
      case MetadataFile => disk.Put(dir, contents.(metadata := None))
  }

  /** The state after a run of actions. */
  function Run(s: State, actions: seq<Action>): State
    decreases |actions|
  {
    if actions == [] then s else Run(Next(s, actions[0]), actions[1..])
  }

  /** Every action of the run is enabled when it happens. */
  ghost predicate Valid(codec: Codec, s: State, actions: seq<Action>)
    decreases |actions|
  {
    actions == [] || (Enabled(codec, s, actions[0]) && Valid(codec, Next(s, actions[0]), actions[1..]))
  }
}
