/**
  The target contract of gokart/target.py: TargetOnKart's lock routing, the
  single-file target (write, then annotate gs:// paths) and the model target
  (scratch directory, two fixed files, archive, lazily bound load function).

  The store is an object with a map of files and a set of directories; every
  observable step appends an event to a ghost trace. Lock wrappers only record
  an event. Each Target method is proved against a pure specification function
  over a Disk value, and the lifecycle properties are lemmas about those functions.
 */
module Targets {
  import opened Wrappers
  import opened Paths
  import opened TargetPaths

  /** A Python object as the targets see it: None, plain data, or a model-loading function of the model file's bytes. */
  datatype Value =
    | NoneValue
    | Object(data: seq<int>)
    | Function(call: seq<int> -> Value)

  /** Python truthiness as used by `self._load_function or ...`: only None is falsy here. */
  predicate Truthy(v: Value) {
    !v.NoneValue?
  }

  /** File contents: a pickled object, raw bytes written by a save function, or a zip of the two model files. */
  datatype Blob =
    | Pickled(value: Value)
    | Raw(bytes: seq<int>)
    | Archive(model: Option<Blob>, loader: Option<Blob>)

  datatype TargetError =
    | FileNotFound(path: string)
    | UnreadableFile(path: string)
    | NotAnArchive(path: string)
    | NotCallable
    | SaveFailed

  /** Observable steps, in the order they happen. */
  datatype Event =
    | LoadUnderLock(scope: TaskLockParams)
    | DumpUnderLock(scope: TaskLockParams)
    | RemoveUnderLock(scope: TaskLockParams)
    | Wrote(path: string)
    | Annotated(path: string)
    | Deleted(path: string)
    | CreatedDir(dir: string)
    | RemovedTree(dir: string)
    | Archived(path: string)
    | Unpacked(path: string)

  /** The state of the store as a value. */
  datatype Disk = Disk(files: map<string, Blob>, dirs: set<string>)

  /** The user's save function: the bytes it writes to model.pkl, or None when it raises. */
  type SaveFunction = Value -> Option<seq<int>>

  /** SingleFileTarget or ModelTarget; a model target carries its scratch directory and save function. */
  datatype Kind =
    | SingleFile
    | Model(scratch: string, save: SaveFunction)

  datatype LoadOutcome = LoadOutcome(result: Result<Value, TargetError>, disk: Disk, loadFunction: Value, events: seq<Event>)
  datatype DumpOutcome = DumpOutcome(disk: Disk, events: seq<Event>, failure: Option<TargetError>)

  function ModelPath(scratch: string): string {
    Join(scratch, "model.pkl")
  }

  function LoaderPath(scratch: string): string {
    Join(scratch, "load_function.pkl")
  }

  /** Lock scope of the nested target that holds load_function.pkl (make_target with no unique id). */
  function LoaderScope(scratch: string): TaskLockParams {
    ResolveLockParams(LoaderPath(scratch), None, None)
  }

  function Entry(files: map<string, Blob>, p: string): Option<Blob> {
    if p in files then Some(files[p]) else None
  }

  // ---------------------------------------------------------------------------
  // Primitive store operations as functions on Disk

  function WriteBlob(disk: Disk, p: string, b: Blob): Disk {
    disk.(files := disk.files[p := b])
  }

  /** os.makedirs(d, exist_ok=True); parent directories are not tracked. */
  function MakeDir(disk: Disk, d: string): Disk {
    disk.(dirs := disk.dirs + {d})
  }

  /** shutil.rmtree(d): the directory and everything under it disappear. */
  function RemoveTree(disk: Disk, d: string): (r: Disk)
    ensures forall p :: p in r.files <==> p in disk.files && !Within(p, d)
    ensures forall x :: x in r.dirs <==> x in disk.dirs && x != d && !Within(x, d)
  {
    Disk(map p | p in disk.files && !Within(p, d) :: disk.files[p],
         set x | x in disk.dirs && x != d && !Within(x, d))
  }

  /** The zip client's make_archive: the two fixed files of the scratch directory. */
  function Pack(disk: Disk, scratch: string): Blob {
    Archive(Entry(disk.files, ModelPath(scratch)), Entry(disk.files, LoaderPath(scratch)))
  }

  /** The zip client's unpack_archive into the scratch directory. */
  function UnpackInto(disk: Disk, scratch: string, a: Blob): Disk
    requires a.Archive?
  {
    var f1 := if a.model.Some? then disk.files[ModelPath(scratch) := a.model.value] else disk.files;
    var f2 := if a.loader.Some? then f1[LoaderPath(scratch) := a.loader.value] else f1;
    Disk(f2, disk.dirs + {scratch})
  }

  /** Opening a pickle file and loading it with the pickle processor. */
  function ReadPickle(files: map<string, Blob>, p: string): Result<Value, TargetError> {
    if p !in files then Failure(FileNotFound(p))
    else if files[p].Pickled? then Success(files[p].value)
    else Failure(UnreadableFile(p))
  }

  /** self._load_function(self._model_path()): calling None fails before the file is read. */
  function CallLoader(fn: Value, files: map<string, Blob>, modelPath: string): Result<Value, TargetError> {
    if !fn.Function? then Failure(NotCallable)
    else if modelPath !in files then Failure(FileNotFound(modelPath))
    else if !files[modelPath].Raw? then Failure(UnreadableFile(modelPath))
    else Success(fn.call(files[modelPath].bytes))
  }

  // ---------------------------------------------------------------------------
  // Specifications of _dump and _load

  /** SingleFileTarget._dump: write first, then annotate only gs:// paths. */
  function SingleDumpEvents(path: string): (es: seq<Event>)
    ensures |es| >= 1 && es[0] == Wrote(path)
    ensures Annotated(path) in es <==> StartsWith(path, "gs://")
  {
    [Wrote(path)] + (if StartsWith(path, "gs://") then [Annotated(path)] else [])
  }

  /**
    _dump of either kind of target, without the lock wrapper. A save function that
    raises ends the model dump right after the scratch directory was made.
   */
  function DumpSpec(disk: Disk, path: string, kind: Kind, loadFunction: Value, obj: Value): DumpOutcome {
    match kind
    case SingleFile =>
      DumpOutcome(WriteBlob(disk, path, Pickled(obj)), SingleDumpEvents(path), None)
    case Model(scratch, save) =>
      var d1 := MakeDir(disk, scratch);
      if save(obj).None? then DumpOutcome(d1, [CreatedDir(scratch)], Some(SaveFailed))
      else
        var o := SavedDump(d1, path, scratch, save(obj).value, loadFunction);
        o.(events := [CreatedDir(scratch)] + o.events)
  }

  /**
    The rest of ModelTarget._dump once the save function has written its bytes: the nested
    locked dump of the load function, the archive, then removal of the scratch directory.
   */
  function SavedDump(disk: Disk, path: string, scratch: string, bytes: seq<int>, loadFunction: Value): DumpOutcome {
    var d2 := WriteBlob(WriteBlob(disk, ModelPath(scratch), Raw(bytes)), LoaderPath(scratch), Pickled(loadFunction));
    DumpOutcome(RemoveTree(WriteBlob(d2, path, Pack(d2, scratch)), scratch),
      [Wrote(ModelPath(scratch)), DumpUnderLock(LoaderScope(scratch))] + SingleDumpEvents(LoaderPath(scratch))
      + [Archived(path), RemovedTree(scratch)],
      None)
  }

  /**
    ModelTarget._load: unpack, bind the load function (the constructor's if truthy,
    otherwise the one pickled in load_function.pkl, through a nested locked load),
    call it, and remove the scratch directory only when all of that succeeded.
   */
  function ModelLoad(disk: Disk, path: string, scratch: string, loadFunction: Value): LoadOutcome {
    if path !in disk.files then LoadOutcome(Failure(FileNotFound(path)), disk, loadFunction, [])
    else if !disk.files[path].Archive? then LoadOutcome(Failure(NotAnArchive(path)), disk, loadFunction, [])
    else
      var d1 := UnpackInto(disk, scratch, disk.files[path]);
      var resolved := if Truthy(loadFunction) then Success(loadFunction) else ReadPickle(d1.files, LoaderPath(scratch));
      var prelude := [Unpacked(path)] + (if Truthy(loadFunction) then [] else [LoadUnderLock(LoaderScope(scratch))]);
      if resolved.Failure? then LoadOutcome(Failure(resolved.error), d1, loadFunction, prelude)
      else
        var called := CallLoader(resolved.value, d1.files, ModelPath(scratch));
        if called.Failure? then LoadOutcome(called, d1, resolved.value, prelude)
        else LoadOutcome(called, RemoveTree(d1, scratch), resolved.value, prelude + [RemovedTree(scratch)])
  }

  /** TargetOnKart.load: always through the lock wrapper, then _load. */
  function LoadSpec(disk: Disk, path: string, kind: Kind, loadFunction: Value, scope: TaskLockParams): (o: LoadOutcome)
    ensures |o.events| >= 1 && o.events[0] == LoadUnderLock(scope)
    ensures kind.SingleFile? ==> o.disk == disk && o.loadFunction == loadFunction
  {
    var inner := InnerLoad(disk, path, kind, loadFunction);
    inner.(events := [LoadUnderLock(scope)] + inner.events)
  }

  /** _load of either kind of target. */
  function InnerLoad(disk: Disk, path: string, kind: Kind, loadFunction: Value): LoadOutcome {
    match kind
    case SingleFile => LoadOutcome(ReadPickle(disk.files, path), disk, loadFunction, [])
    case Model(scratch, _) => ModelLoad(disk, path, scratch, loadFunction)
  }

  // ---------------------------------------------------------------------------
  // The store and the targets

  class Storage {
    var files: map<string, Blob>
    var dirs: set<string>
    ghost var trace: seq<Event>

    constructor ()
      ensures files == map[] && dirs == {} && trace == []
    {
      files := map[];
      dirs := {};
      trace := [];
    }

    function Snapshot(): Disk
      reads this
    {
      Disk(files, dirs)
    }

    ghost method Record(e: Event)
      modifies this
      ensures files == old(files) && dirs == old(dirs) && trace == old(trace) + [e]
    {
      trace := trace + [e];
    }

    method Write(p: string, b: Blob)
      modifies this
      ensures Snapshot() == WriteBlob(old(Snapshot()), p, b) && trace == old(trace) + [Wrote(p)]
    {
      files := files[p := b];
      trace := trace + [Wrote(p)];
    }

    method Delete(p: string)
      modifies this
      ensures files == old(files) - {p} && dirs == old(dirs) && trace == old(trace) + [Deleted(p)]
    {
      files := files - {p};
      trace := trace + [Deleted(p)];
    }

    method MakeDirs(d: string)
      modifies this
      ensures Snapshot() == MakeDir(old(Snapshot()), d) && trace == old(trace) + [CreatedDir(d)]
    {
      dirs := dirs + {d};
      trace := trace + [CreatedDir(d)];
    }

    method RemoveDirTree(d: string)
      modifies this
      ensures Snapshot() == RemoveTree(old(Snapshot()), d) && trace == old(trace) + [RemovedTree(d)]
    {
      var r := RemoveTree(Snapshot(), d);
      files, dirs := r.files, r.dirs;
      trace := trace + [RemovedTree(d)];
    }

    method MakeArchive(path: string, scratch: string)
      modifies this
      ensures Snapshot() == WriteBlob(old(Snapshot()), path, Pack(old(Snapshot()), scratch))
      ensures trace == old(trace) + [Archived(path)]
    {
      files := files[path := Pack(Snapshot(), scratch)];
      trace := trace + [Archived(path)];
    }

    method UnpackArchive(path: string, scratch: string)
      requires path in files && files[path].Archive?
      modifies this
      ensures Snapshot() == UnpackInto(old(Snapshot()), scratch, old(files[path]))
      ensures trace == old(trace) + [Unpacked(path)]
    {
      var r := UnpackInto(Snapshot(), scratch, files[path]);
      files, dirs := r.files, r.dirs;
      trace := trace + [Unpacked(path)];
    }
  }

  class Target {
    const store: Storage
    const path: string
    const kind: Kind
    const scope: TaskLockParams
    var loadFunction: Value

    /** make_target: the path gets the run suffix; the lock scope comes from the path as given. */
    constructor MakeTarget(store: Storage, filePath: string, uniqueId: Option<string>, given: Option<TaskLockParams>)
      ensures this.store == store && kind == SingleFile && loadFunction == NoneValue
      ensures path == MakeFilePath(filePath, uniqueId)
      ensures scope == ResolveLockParams(filePath, uniqueId, given)
    {
      this.store := store;
      path := MakeFilePath(filePath, uniqueId);
      kind := SingleFile;
      scope := ResolveLockParams(filePath, uniqueId, given);
      loadFunction := NoneValue;
    }

    /** make_model_target: as make_target, plus a scratch directory named by the digest of the final path. */
    constructor MakeModelTarget(store: Storage, filePath: string, temporaryRoot: string, save: SaveFunction,
                                load: Value, uniqueId: Option<string>, given: Option<TaskLockParams>, digest: string -> string)
      ensures this.store == store && loadFunction == load
      ensures path == MakeFilePath(filePath, uniqueId)
      ensures kind == Model(ScratchDirectory(temporaryRoot, path, digest), save)
      ensures scope == ResolveLockParams(filePath, uniqueId, given)
    {
      this.store := store;
      path := MakeFilePath(filePath, uniqueId);
      kind := Model(ScratchDirectory(temporaryRoot, MakeFilePath(filePath, uniqueId), digest), save);
      scope := ResolveLockParams(filePath, uniqueId, given);
      loadFunction := load;
    }

    predicate Exists()
      reads store
    {
      path in store.files
    }

    /** TargetOnKart.load: always through the lock wrapper, then _load. */
    method Load() returns (r: Result<Value, TargetError>)
      modifies this, store
      decreases if kind.Model? then 1 else 0, 2
      ensures r == LoadSpec(old(store.Snapshot()), path, kind, old(loadFunction), scope).result
      ensures store.Snapshot() == LoadSpec(old(store.Snapshot()), path, kind, old(loadFunction), scope).disk
      ensures loadFunction == LoadSpec(old(store.Snapshot()), path, kind, old(loadFunction), scope).loadFunction
      ensures store.trace == old(store.trace) + LoadSpec(old(store.Snapshot()), path, kind, old(loadFunction), scope).events
    {
      ghost var disk, fn := store.Snapshot(), loadFunction;
      ghost var inner := InnerLoad(disk, path, kind, fn);
      store.Record(LoadUnderLock(scope));
      ghost var locked := store.trace;
      if kind.SingleFile? {
        r := LoadFile();
      } else {
        r := LoadModel();
      }
      assert r == inner.result && store.Snapshot() == inner.disk && loadFunction == inner.loadFunction;
      assert store.trace == locked + inner.events;
    }

    /** SingleFileTarget._load. */
    method LoadFile() returns (r: Result<Value, TargetError>)
      requires kind.SingleFile?
      decreases 0, 0
      ensures r == ReadPickle(store.files, path)
    {
      r := ReadPickle(store.files, path);
    }

    /** ModelTarget._load. */
    method LoadModel() returns (r: Result<Value, TargetError>)
      requires kind.Model?
      modifies this, store
      decreases 1, 1
      ensures var o := ModelLoad(old(store.Snapshot()), path, kind.scratch, old(loadFunction));
        && r == o.result
        && store.Snapshot() == o.disk
        && loadFunction == o.loadFunction
        && store.trace == old(store.trace) + o.events
    {
      var scratch := kind.scratch;
      if path !in store.files {
        return Failure(FileNotFound(path));
      }
      if !store.files[path].Archive? {
        return Failure(NotAnArchive(path));
      }
      store.UnpackArchive(path, scratch);
      var resolved := ResolveLoadFunction();
      if resolved.Failure? {
        return Failure(resolved.error);
      }
      loadFunction := resolved.value;
      r := CallLoader(loadFunction, store.files, ModelPath(scratch));
      if r.Success? {
        store.RemoveDirTree(scratch);
      }
    }

    /** `self._load_function or <nested locked load of load_function.pkl>`: the disk is only read. */
    method ResolveLoadFunction() returns (r: Result<Value, TargetError>)
      requires kind.Model?
      modifies store
      decreases 1, 0
      ensures r == if Truthy(loadFunction) then Success(loadFunction) else ReadPickle(store.files, LoaderPath(kind.scratch))
      ensures store.Snapshot() == old(store.Snapshot())
      ensures store.trace == old(store.trace) + (if Truthy(loadFunction) then [] else [LoadUnderLock(LoaderScope(kind.scratch))])
    {
      if Truthy(loadFunction) {
        return Success(loadFunction);
      }
      var loader := new Target.MakeTarget(store, LoaderPath(kind.scratch), None, None);
      r := loader.Load();
    }

    /** TargetOnKart.dump: through the lock wrapper iff lockAtDump, then _dump; err is the exception _dump raises. */
    method Dump(obj: Value, lockAtDump: bool) returns (err: Option<TargetError>)
      modifies store
      decreases if kind.Model? then 1 else 0, 3
      ensures store.Snapshot() == DumpSpec(old(store.Snapshot()), path, kind, loadFunction, obj).disk
      ensures store.trace == old(store.trace) + (if lockAtDump then [DumpUnderLock(scope)] else [])
                             + DumpSpec(old(store.Snapshot()), path, kind, loadFunction, obj).events
      ensures err == DumpSpec(old(store.Snapshot()), path, kind, loadFunction, obj).failure
    {
      ghost var o := DumpSpec(store.Snapshot(), path, kind, loadFunction, obj);
      ghost var lock := if lockAtDump then [DumpUnderLock(scope)] else [];
      if lockAtDump {
        store.Record(DumpUnderLock(scope));
      }
      ghost var t := store.trace;
      assert t == old(store.trace) + lock;
      if kind.SingleFile? {
        DumpFile(obj);
        err := None;
      } else {
        err := DumpModel(obj);
      }
      assert store.trace == t + o.events;
    }

    /** SingleFileTarget._dump. */
    method DumpFile(obj: Value)
      requires kind.SingleFile?
      modifies store
      decreases 0, 0
      ensures var o := DumpSpec(old(store.Snapshot()), path, kind, loadFunction, obj);
        && store.Snapshot() == o.disk
        && store.trace == old(store.trace) + o.events
    {
      store.Write(path, Pickled(obj));
      if StartsWith(path, "gs://") {
        store.Record(Annotated(path));
      }
    }

    /** ModelTarget._dump: a save function that raises skips the nested dump, archiving and cleanup. */
    method DumpModel(obj: Value) returns (err: Option<TargetError>)
      requires kind.Model?
      modifies store
      decreases 1, 2
      ensures var o := DumpSpec(old(store.Snapshot()), path, kind, loadFunction, obj);
        && store.Snapshot() == o.disk
        && store.trace == old(store.trace) + o.events
        && err == o.failure
    {
      ghost var disk, t := store.Snapshot(), store.trace;
      ghost var spec := DumpSpec(disk, path, kind, loadFunction, obj);
      store.MakeDirs(kind.scratch);
      var saved := kind.save(obj);
      if saved.None? {
        assert spec == DumpOutcome(store.Snapshot(), [CreatedDir(kind.scratch)], Some(SaveFailed));
        return Some(SaveFailed);
      }
      ghost var o := SavedDump(store.Snapshot(), path, kind.scratch, saved.value, loadFunction);
      assert spec == o.(events := [CreatedDir(kind.scratch)] + o.events);
      ArchiveScratch(saved.value);
      assert store.trace == t + ([CreatedDir(kind.scratch)] + o.events);
      err := None;
    }

    /** ModelTarget._dump after save_function returned: the load function, the archive, the cleanup. */
    method ArchiveScratch(bytes: seq<int>)
      requires kind.Model?
      modifies store
      decreases 1, 1
      ensures var o := SavedDump(old(store.Snapshot()), path, kind.scratch, bytes, loadFunction);
        && store.Snapshot() == o.disk
        && store.trace == old(store.trace) + o.events
    {
      WriteScratch(bytes);
      store.MakeArchive(path, kind.scratch);
      store.RemoveDirTree(kind.scratch);
    }

    /** The middle of ModelTarget._dump: model.pkl holds the saved bytes, then a nested locked dump pickles the load function. */
    method WriteScratch(bytes: seq<int>)
      requires kind.Model?
      modifies store
      decreases 1, 0
      ensures store.Snapshot() ==
        WriteBlob(WriteBlob(old(store.Snapshot()), ModelPath(kind.scratch), Raw(bytes)), LoaderPath(kind.scratch), Pickled(loadFunction))
      ensures store.trace ==
        old(store.trace) + [Wrote(ModelPath(kind.scratch)), DumpUnderLock(LoaderScope(kind.scratch))] + SingleDumpEvents(LoaderPath(kind.scratch))
    {
      var scratch := kind.scratch;
      store.Write(ModelPath(scratch), Raw(bytes));
      var loader := new Target.MakeTarget(store, LoaderPath(scratch), None, None);
      var nested := loader.Dump(loadFunction, true);
    }

    /** TargetOnKart.remove: nothing happens unless the target exists. */
    method Remove()
      modifies store
      ensures old(Exists()) ==>
        && store.files == old(store.files) - {path}
        && store.dirs == old(store.dirs)
        && store.trace == old(store.trace) + [RemoveUnderLock(scope), Deleted(path)]
      ensures !old(Exists()) ==> store.Snapshot() == old(store.Snapshot()) && store.trace == old(store.trace)
    {
      if Exists() {
        store.Record(RemoveUnderLock(scope));
        store.Delete(path);
      }
    }
  }

  // ---------------------------------------------------------------------------
  // Lifecycle properties

  /** A single-file dump followed by a load gives the object back and touches no other file. */
  lemma {:induction false} SingleFileRoundTrip(disk: Disk, path: string, lf: Value, lf2: Value, obj: Value, scope: TaskLockParams)
    ensures var d := DumpSpec(disk, path, SingleFile, lf, obj).disk;
      && LoadSpec(d, path, SingleFile, lf2, scope).result == Success(obj)
      && d.dirs == disk.dirs
      && forall p :: p != path ==> Entry(d.files, p) == Entry(disk.files, p)
  {
  }

  /** The two fixed files lie in the scratch directory and are distinct. */
  lemma ScratchFiles(scratch: string)
    requires scratch != ""
    ensures Within(ModelPath(scratch), scratch) && Within(LoaderPath(scratch), scratch)
    ensures ModelPath(scratch) != LoaderPath(scratch)
  {
    JoinWithin(scratch, "model.pkl");
    JoinWithin(scratch, "load_function.pkl");
    assert |ModelPath(scratch)| < |LoaderPath(scratch)|;
  }

  /**
    When the save function succeeds, ModelTarget._dump ends with the archive of the two
    fixed files at the target path, nothing left of the scratch directory, and every
    other file and directory as before.
   */
  lemma {:induction false} ModelDumpLeavesArchive(disk: Disk, path: string, scratch: string, save: SaveFunction, lf: Value, obj: Value)
    requires scratch != "" && !Within(path, scratch)
    ensures save(obj).Some? ==>
      var o := DumpSpec(disk, path, Model(scratch, save), lf, obj);
      var d := o.disk;
      && o.failure == None
      && path in d.files && d.files[path] == Archive(Some(Raw(save(obj).value)), Some(Pickled(lf)))
      && (forall p :: Within(p, scratch) ==> p !in d.files)
      && (forall x :: x in d.dirs ==> x != scratch && !Within(x, scratch))
      && (forall p :: p != path && !Within(p, scratch) ==> Entry(d.files, p) == Entry(disk.files, p))
      && (forall x :: x != scratch && !Within(x, scratch) ==> (x in d.dirs <==> x in disk.dirs))
  {
    if save(obj).Some? {
      ScratchFiles(scratch);
      var d1 := WriteBlob(MakeDir(disk, scratch), ModelPath(scratch), Raw(save(obj).value));
      var d2 := WriteBlob(d1, LoaderPath(scratch), Pickled(lf));
      assert Pack(d2, scratch) == Archive(Some(Raw(save(obj).value)), Some(Pickled(lf)));
      var d3 := WriteBlob(d2, path, Pack(d2, scratch));
      assert DumpSpec(disk, path, Model(scratch, save), lf, obj).disk == RemoveTree(d3, scratch);
    }
  }

  /**
    Scratch cleanup of _dump is not in a finally block either: the dump fails exactly when
    the save function raises, and then the scratch directory stays behind, nothing is
    archived and the target path keeps what it held.
   */
  lemma {:induction false} DumpScratchLeftOnFailure(disk: Disk, path: string, scratch: string, save: SaveFunction, lf: Value, obj: Value)
    ensures var o := DumpSpec(disk, path, Model(scratch, save), lf, obj);
      && (o.failure.Some? <==> save(obj).None?)
      && (RemovedTree(scratch) in o.events <==> o.failure.None?)
      && (o.failure.Some? ==>
            && o.failure == Some(SaveFailed)
            && scratch in o.disk.dirs
            && o.disk.files == disk.files
            && Archived(path) !in o.events)
  {
    var o := DumpSpec(disk, path, Model(scratch, save), lf, obj);
    if o.failure.None? {
      assert o.events[|o.events| - 1] == RemovedTree(scratch);
    } else {
      assert o.events == [CreatedDir(scratch)];
    }
  }

  /** Removing the scratch directory undoes unpacking into it, when it held nothing before. */
  lemma {:induction false} RemoveUnpacked(disk: Disk, scratch: string, a: Blob)
    requires scratch != "" && a.Archive?
    requires forall p :: p in disk.files ==> !Within(p, scratch)
    requires forall x :: x in disk.dirs ==> x != scratch && !Within(x, scratch)
    ensures RemoveTree(UnpackInto(disk, scratch, a), scratch) == disk
  {
    ScratchFiles(scratch);
    var r := RemoveTree(UnpackInto(disk, scratch, a), scratch);
    assert r.files == disk.files;
    assert r.dirs == disk.dirs;
  }

  /**
    Round trip of a model target: after a dump with load function f, a load by a
    target whose own load function is falsy reads f back from load_function.pkl,
    keeps it, applies it to the saved bytes and leaves the store as the dump did.
    A truthy load function of the loading target is used instead.
   */
  lemma {:induction false} ModelRoundTrip(disk: Disk, path: string, scratch: string, save: SaveFunction,
                                          f: seq<int> -> Value, lf2: Value, obj: Value, scope: TaskLockParams)
    requires scratch != "" && !Within(path, scratch)
    ensures save(obj).Some? ==>
      var d := DumpSpec(disk, path, Model(scratch, save), Function(f), obj).disk;
      var o := LoadSpec(d, path, Model(scratch, save), lf2, scope);
      var fn := if Truthy(lf2) then lf2 else Function(f);
      && o.loadFunction == fn
      && (fn.Function? ==> o.result == Success(fn.call(save(obj).value)) && o.disk == d)
      && (!fn.Function? ==> o.result == Failure(NotCallable))
      && (Truthy(lf2) <==> LoadUnderLock(LoaderScope(scratch)) !in o.events[1..])
  {
    if save(obj).Some? {
      ModelDumpLeavesArchive(disk, path, scratch, save, Function(f), obj);
      var d := DumpSpec(disk, path, Model(scratch, save), Function(f), obj).disk;
      ArchiveRoundTrip(d, path, scratch, save(obj).value, f, lf2);
      var o := LoadSpec(d, path, Model(scratch, save), lf2, scope);
      assert o.events[1..] == ModelLoad(d, path, scratch, lf2).events;
    }
  }

  /** ModelTarget._load of an archive of bytes and f, into a scratch directory that holds nothing. */
  lemma {:induction false} ArchiveRoundTrip(d: Disk, path: string, scratch: string, bytes: seq<int>, f: seq<int> -> Value, lf2: Value)
    requires scratch != "" && !Within(path, scratch)
    requires path in d.files && d.files[path] == Archive(Some(Raw(bytes)), Some(Pickled(Function(f))))
    requires forall p :: Within(p, scratch) ==> p !in d.files
    requires forall x :: x in d.dirs ==> x != scratch && !Within(x, scratch)
    ensures var o := ModelLoad(d, path, scratch, lf2);
      var fn := if Truthy(lf2) then lf2 else Function(f);
      && o.loadFunction == fn
      && (fn.Function? ==> o.result == Success(fn.call(bytes)) && o.disk == d)
      && (!fn.Function? ==> o.result == Failure(NotCallable))
      && (Truthy(lf2) <==> LoadUnderLock(LoaderScope(scratch)) !in o.events)
  {
    ScratchFiles(scratch);
    var a := d.files[path];
    var d1 := UnpackInto(d, scratch, a);
    assert d1.files[LoaderPath(scratch)] == Pickled(Function(f));
    assert d1.files[ModelPath(scratch)] == Raw(bytes);
    RemoveUnpacked(d, scratch, a);
  }

  /**
    Scratch cleanup is not in a finally block: the load's trace shows the scratch
    directory removed exactly when the load succeeds, and a load that fails after
    unpacking leaves the scratch directory behind.
   */
  lemma {:induction false} ScratchRemovedOnlyOnSuccess(disk: Disk, path: string, scratch: string, save: SaveFunction,
                                                       lf: Value, scope: TaskLockParams)
    ensures var o := LoadSpec(disk, path, Model(scratch, save), lf, scope);
      && (RemovedTree(scratch) in o.events <==> o.result.Success?)
      && (o.result.Failure? && path in disk.files && disk.files[path].Archive? ==> scratch in o.disk.dirs)
  {
    var o := LoadSpec(disk, path, Model(scratch, save), lf, scope);
    var inner := ModelLoad(disk, path, scratch, lf);
    ModelLoadCleanup(disk, path, scratch, lf);
    assert o.events == [LoadUnderLock(scope)] + inner.events;
    assert RemovedTree(scratch) in o.events <==> RemovedTree(scratch) in inner.events;
  }

  /** ModelTarget._load removes the scratch directory iff it succeeds; a failure after unpacking leaves it behind. */
  lemma {:induction false} ModelLoadCleanup(disk: Disk, path: string, scratch: string, lf: Value)
    ensures var o := ModelLoad(disk, path, scratch, lf);
      && (RemovedTree(scratch) in o.events <==> o.result.Success?)
      && (o.result.Failure? && path in disk.files && disk.files[path].Archive? ==> scratch in o.disk.dirs)
  {
    var o := ModelLoad(disk, path, scratch, lf);
    if o.result.Success? {
      assert o.events[|o.events| - 1] == RemovedTree(scratch);
    }
  }

  /**
    A model dumped with no load function cannot be loaded by a target that has none
    either: the None read from load_function.pkl is bound and then called, and the
    scratch directory with both unpacked files stays behind.
   */
  lemma {:induction false} NoneLoaderLeavesScratch(disk: Disk, path: string, scratch: string, save: SaveFunction,
                                                   obj: Value, scope: TaskLockParams)
    requires scratch != "" && !Within(path, scratch)
    ensures save(obj).Some? ==>
      var d := DumpSpec(disk, path, Model(scratch, save), NoneValue, obj).disk;
      var o := LoadSpec(d, path, Model(scratch, save), NoneValue, scope);
      && o.result == Failure(NotCallable)
      && o.loadFunction == NoneValue
      && scratch in o.disk.dirs
      && ModelPath(scratch) in o.disk.files && LoaderPath(scratch) in o.disk.files
  {
    if save(obj).Some? {
      ModelDumpLeavesArchive(disk, path, scratch, save, NoneValue, obj);
      ScratchFiles(scratch);
      var d := DumpSpec(disk, path, Model(scratch, save), NoneValue, obj).disk;
      var d1 := UnpackInto(d, scratch, d.files[path]);
      assert d1.files[LoaderPath(scratch)] == Pickled(NoneValue);
      assert ModelLoad(d, path, scratch, NoneValue) == LoadOutcome(Failure(NotCallable), d1, NoneValue,
        [Unpacked(path), LoadUnderLock(LoaderScope(scratch))]);
    }
  }

  /**
    The load function bound by a successful load is kept: a second load of the same
    archive does not load load_function.pkl again, returns the same model and leaves
    the store as the first load did.
   */
  lemma {:induction false} BoundLoaderIsKept(disk: Disk, path: string, scratch: string, save: SaveFunction,
                                             lf: Value, scope: TaskLockParams)
    requires scratch != "" && !Within(path, scratch)
    requires path in disk.files && disk.files[path].Archive? && disk.files[path].model.Some?
    requires LoadSpec(disk, path, Model(scratch, save), lf, scope).result.Success?
    ensures var o1 := LoadSpec(disk, path, Model(scratch, save), lf, scope);
      var o2 := LoadSpec(o1.disk, path, Model(scratch, save), o1.loadFunction, scope);
      && o2.result == o1.result
      && o2.loadFunction == o1.loadFunction
      && o2.disk == o1.disk
      && o2.events == [LoadUnderLock(scope), Unpacked(path), RemovedTree(scratch)]
  {
    ScratchFiles(scratch);
    var a := disk.files[path];
    var d1 := UnpackInto(disk, scratch, a);
    var o1 := LoadSpec(disk, path, Model(scratch, save), lf, scope);
    assert o1.disk == RemoveTree(d1, scratch);
    assert o1.loadFunction.Function?;
    assert path in o1.disk.files && o1.disk.files[path] == a;
    RemoveUnpacked(o1.disk, scratch, a);
  }
}
