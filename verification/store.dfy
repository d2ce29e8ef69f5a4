/**
 * The local-disk asset store: `save`, `exists` and `delete` of
 * core/server/storage/local-file-store.js over the abstract disk.
 */
module LocalFileStore {
  import opened Values
  import opened Settings
  import opened Paths
  import opened FileSystem

  /** The express upload object: the original file name and the temporary path it was written to. */
  datatype UploadFile = UploadFile(name: string, path: string)

  /**
   * What the store gets from its host and from the base store, left opaque:
   * the separator `path.sep`; `getTargetDir(basePath)` (called with
   * `undefined` when the base path is not set); `getUniqueFileName(store,
   * file, dir)`, which observes the disk and may fail; and `path.relative`
   * for a target that is not beneath its base.
   */
  datatype Host = Host(
    sep: char,
    targetDirOf: Option<string> -> string,
    uniqueName: (Fs, UploadFile, string) -> Result<string, Fault>,
    relativeOutside: (string, string) -> string)

  datatype StoreError =
    | IncorrectUsage(message: string)
    | StorageError(fault: Fault)

  /**
   * How a call ends: an exception thrown synchronously, a rejected promise,
   * or a promise resolved with a value.
   */
  datatype Outcome<+T> = Thrown(thrown: StoreError) | Rejected(reason: StoreError) | Resolved(value: T)

  /** The observable steps of `save`, in the order they are issued. */
  datatype Action =
    | FindUniqueName(dir: string)
    | MakeDirs(dir: string)
    | CopyFile(src: string, dst: string)
    | LogError(error: StoreError)

  /** Host failures of the two disk writes of `save` (`None`: the call succeeds). */
  datatype SaveIo = SaveIo(mkdirs: Option<Fault>, copy: Option<Fault>)

  /** The disk after `save`, how it ended, and the steps it took. */
  datatype SaveRun = SaveRun(fs: Fs, outcome: Outcome<string>, trace: seq<Action>)

  /** The message of the IncorrectUsage error, naming the uploaded file. */
  function UsageMessage(file: UploadFile): string
  {
    "Incorrect file type was specified for: " + file.name
  }

  /** `type` is truthy and both `config.paths[type + 'Path']` and `config.paths[type + 'RelPath']` are truthy. */
  predicate KnownType(cfg: Config, kind: Option<string>)
  {
    && Truthy(kind)
    && Truthy(Lookup(cfg.paths, kind.value + "Path"))
    && Truthy(Lookup(cfg.paths, kind.value + "RelPath"))
  }

  /** The directory `save` writes into: a truthy `targetDir` argument, else the base store's choice. */
  function SaveDir(host: Host, basePath: string, targetDir: Option<string>): string
  {
    if Truthy(targetDir) then targetDir.value else host.targetDirOf(Some(basePath))
  }

  /** The failure branch of the promise chain: log the error, then reject with it. */
  function Fail(fs: Fs, trace: seq<Action>, fault: Fault): SaveRun
  {
    SaveRun(fs, Rejected(StorageError(fault)), trace + [LogError(StorageError(fault))])
  }

  /** The steps `save` issues, in order, when nothing fails. */
  function Pipeline(dir: string, src: string, dst: string): seq<Action>
  {
    [FindUniqueName(dir), MakeDirs(dir), CopyFile(src, dst)]
  }

  /** `trace` is the start of the pipeline of `save` into `dir` for the source `src`. */
  predicate PipelinePrefix(trace: seq<Action>, dir: string, src: string)
  {
    && 1 <= |trace| <= 3
    && trace[0] == FindUniqueName(dir)
    && (|trace| >= 2 ==> trace[1] == MakeDirs(dir))
    && (|trace| == 3 ==> trace[2].CopyFile? && trace[2].src == src)
  }

  /**
   * `save(file, type, targetDir)`. An unknown type throws IncorrectUsage
   * before any disk access. Otherwise the chain asks the base store for a
   * unique name in the target directory, creates that directory, copies the
   * upload there and resolves with the public URL; a failure at any step is
   * logged and rejects the promise.
   */
  function Save(host: Host, cfg: Config, fs: Fs, file: UploadFile, kind: Option<string>,
                targetDir: Option<string>, io: SaveIo): (r: SaveRun)
    // Validation: thrown exactly for an unknown type, before anything is touched.
    ensures r.outcome.Thrown? <==> !KnownType(cfg, kind)
    ensures r.outcome.Thrown? ==>
      r.outcome.thrown == IncorrectUsage(UsageMessage(file)) && r.fs == fs && r.trace == []
    // The chain: it starts at the chosen directory and keeps the pipeline order.
    ensures KnownType(cfg, kind) ==>
      var dir := SaveDir(host, cfg.paths[kind.value + "Path"], targetDir);
      |r.trace| >= 1 && r.trace[0] == FindUniqueName(dir)
      && (r.outcome.Rejected? ==>
            && r.outcome.reason.StorageError?
            && |r.trace| >= 2
            && r.trace[|r.trace| - 1] == LogError(r.outcome.reason)
            && PipelinePrefix(r.trace[..|r.trace| - 1], dir, file.path))
    // Success: exactly when no step fails and the upload is on disk.
    ensures r.outcome.Resolved? <==>
      && KnownType(cfg, kind)
      && host.uniqueName(fs, file, SaveDir(host, cfg.paths[kind.value + "Path"], targetDir)).Ok?
      && io.mkdirs.None? && io.copy.None?
      && file.path in fs.files
    ensures r.outcome.Resolved? ==>
      var base := cfg.paths[kind.value + "Path"];
      var dir := SaveDir(host, base, targetDir);
      var target := host.uniqueName(fs, file, dir).value;
      && r.trace == Pipeline(dir, file.path, target)
      && r.fs.files == fs.files[target := fs.files[file.path]]
      && file.path in r.fs.files
      && dir in r.fs.dirs && fs.dirs <= r.fs.dirs
      && r.outcome.value == PublicUrl(cfg.subdir, cfg.paths[kind.value + "RelPath"], base, target,
                                      host.sep, host.relativeOutside)
    // Failure never leaves a file the caller did not have.
    ensures r.outcome.Rejected? ==> r.fs.files == fs.files
  {
    if !KnownType(cfg, kind) then
      SaveRun(fs, Thrown(IncorrectUsage(UsageMessage(file))), [])
    else
      var base := cfg.paths[kind.value + "Path"];
      var relPrefix := cfg.paths[kind.value + "RelPath"];
      var dir := SaveDir(host, base, targetDir);
      match host.uniqueName(fs, file, dir)
      case Err(fault) => Fail(fs, [FindUniqueName(dir)], fault)
      case Ok(target) =>
        if io.mkdirs.Some? then
          Fail(fs, [FindUniqueName(dir), MakeDirs(dir)], io.mkdirs.value)
        else
          var made := Mkdirs(fs, dir, host.sep);
          var steps := Pipeline(dir, file.path, target);
          if io.copy.Some? then
            Fail(made, steps, io.copy.value)
          else
            match Copy(made, file.path, target)
            case Err(fault) => Fail(made, steps, fault)
            case Ok(copied) =>
              SaveRun(copied, Resolved(PublicUrl(cfg.subdir, relPrefix, base, target, host.sep, host.relativeOutside)), steps)
  }

  /**
   * `exists(filename)`: resolves to whether `stat` succeeded; a stat error of
   * any kind (`statFault` or a missing path) reads as `false`. The result is a
   * plain boolean: there is no rejecting outcome.
   */
  function Exists(fs: Fs, filename: string, statFault: Option<Fault>): (b: bool)
    ensures b <==> Present(fs, filename) && statFault.None?
  {
    Stat(fs, filename, statFault).None?
  }

  /** The disk after `delete`, how it ended, and the path it removed. */
  datatype DeleteRun = DeleteRun(fs: Fs, outcome: Outcome<()>, path: string)

  /** The directory `delete` works in: a truthy `targetDir`, else the base store's choice for `imagesPath`. */
  function DeleteDir(host: Host, cfg: Config, targetDir: Option<string>): string
  {
    if Truthy(targetDir) then targetDir.value else host.targetDirOf(Lookup(cfg.paths, "imagesPath"))
  }

  /**
   * `delete(fileName, targetDir)`: removes `join(dir, fileName)`, whatever the
   * asset type; the default directory is the one for `imagesPath`. `fault` is
   * a host failure of `remove`, which rejects and leaves the disk alone.
   */
  function Delete(host: Host, cfg: Config, fs: Fs, fileName: string, targetDir: Option<string>,
                  fault: Option<Fault>): (r: DeleteRun)
    ensures r.path == Join(DeleteDir(host, cfg, targetDir), fileName, host.sep)
    ensures !r.outcome.Thrown?
    ensures r.outcome.Resolved? <==> fault.None?
    ensures r.outcome.Rejected? ==> r.outcome.reason == StorageError(fault.value) && r.fs == fs
    ensures r.outcome.Resolved? ==> Clear(r.fs, r.path, host.sep)
    ensures forall q :: !Within(q, r.path, host.sep) ==>
      && (q in r.fs.files <==> q in fs.files)
      && (q in r.fs.files ==> r.fs.files[q] == fs.files[q])
      && (q in r.fs.dirs <==> q in fs.dirs)
  {
    var p := Join(DeleteDir(host, cfg, targetDir), fileName, host.sep);
    if fault.Some? then DeleteRun(fs, Rejected(StorageError(fault.value)), p)
    else DeleteRun(Remove(fs, p, host.sep), Resolved(()), p)
  }

  /** Deleting a file that is not there succeeds and changes nothing. */
  lemma DeleteMissingSucceeds(host: Host, cfg: Config, fs: Fs, fileName: string, targetDir: Option<string>)
    requires Clear(fs, Join(DeleteDir(host, cfg, targetDir), fileName, host.sep), host.sep)
    ensures Delete(host, cfg, fs, fileName, targetDir, None) == DeleteRun(fs, Resolved(()), Join(DeleteDir(host, cfg, targetDir), fileName, host.sep))
  {
    RemoveAbsent(fs, Join(DeleteDir(host, cfg, targetDir), fileName, host.sep), host.sep);
  }

  /**
   * For a file name that is one plain segment, `delete` removes only the
   * immediate child of its directory with that name: everything not beneath
   * the directory is as it was. (A name such as `../x` would reach outside
   * the directory once the host normalises the joined path.)
   */
  lemma DeletePlainNameStaysInDir(host: Host, cfg: Config, fs: Fs, fileName: string, targetDir: Option<string>,
                                  fault: Option<Fault>)
    requires DeleteDir(host, cfg, targetDir) != "" && PlainName(fileName, host.sep)
    ensures var dir := DeleteDir(host, cfg, targetDir);
      var r := Delete(host, cfg, fs, fileName, targetDir, fault);
      && Beneath(dir, r.path, host.sep) && StripBase(dir, r.path, host.sep) == fileName
      && forall q :: !Beneath(dir, q, host.sep) ==>
           && (q in r.fs.files <==> q in fs.files)
           && (q in r.fs.files ==> r.fs.files[q] == fs.files[q])
           && (q in r.fs.dirs <==> q in fs.dirs)
  {
    var dir := DeleteDir(host, cfg, targetDir);
    var r := Delete(host, cfg, fs, fileName, targetDir, fault);
    JoinPlainNameIsChild(dir, fileName, host.sep);
    forall q | !Beneath(dir, q, host.sep)
      ensures !Within(q, r.path, host.sep)
    {
      if Within(q, r.path, host.sep) {
        BeneathTransitive(dir, r.path, q, host.sep);
      }
    }
  }

  /** After a successful `save`, `exists` on the written path is true (when `stat` raises nothing else). */
  lemma ExistsAfterSave(host: Host, cfg: Config, fs: Fs, file: UploadFile, kind: Option<string>,
                        targetDir: Option<string>, io: SaveIo)
    requires Save(host, cfg, fs, file, kind, targetDir, io).outcome.Resolved?
    ensures var dir := SaveDir(host, cfg.paths[kind.value + "Path"], targetDir);
            Exists(Save(host, cfg, fs, file, kind, targetDir, io).fs, host.uniqueName(fs, file, dir).value, None)
  {
  }

  /**
   * A saved file is gone after `delete` of its name in the same directory,
   * when the unique name is that name joined onto the directory.
   */
  lemma DeleteAfterSave(host: Host, cfg: Config, fs: Fs, file: UploadFile, kind: Option<string>,
                        targetDir: Option<string>, io: SaveIo, name: string)
    requires Save(host, cfg, fs, file, kind, targetDir, io).outcome.Resolved?
    requires var dir := SaveDir(host, cfg.paths[kind.value + "Path"], targetDir);
             dir != "" && host.uniqueName(fs, file, dir).value == Join(dir, name, host.sep)
    ensures var dir := SaveDir(host, cfg.paths[kind.value + "Path"], targetDir);
            var saved := Save(host, cfg, fs, file, kind, targetDir, io).fs;
            && Exists(saved, Join(dir, name, host.sep), None)
            && !Exists(Delete(host, cfg, saved, name, Some(dir), None).fs, Join(dir, name, host.sep), None)
  {
    var dir := SaveDir(host, cfg.paths[kind.value + "Path"], targetDir);
    var saved := Save(host, cfg, fs, file, kind, targetDir, io).fs;
    var d := Delete(host, cfg, saved, name, Some(dir), None);
    assert d.path == Join(dir, name, host.sep);
    assert Within(d.path, d.path, host.sep);
  }

  /**
   * The directory choice of `save`: a truthy `targetDir` argument is used as
   * it is, otherwise the base store picks one for the type's base path; the
   * unique name is asked for in that directory and the copy goes to it.
   */
  lemma SaveUsesChosenDir(host: Host, cfg: Config, fs: Fs, file: UploadFile, kind: Option<string>,
                          targetDir: Option<string>, io: SaveIo)
    requires KnownType(cfg, kind)
    ensures var r := Save(host, cfg, fs, file, kind, targetDir, io);
      && (Truthy(targetDir) ==> r.trace[0] == FindUniqueName(targetDir.value))
      && (!Truthy(targetDir) ==> r.trace[0] == FindUniqueName(host.targetDirOf(Some(cfg.paths[kind.value + "Path"]))))
      && (r.outcome.Resolved? ==>
            r.trace[2] == CopyFile(file.path, host.uniqueName(fs, file, SaveDir(host, cfg.paths[kind.value + "Path"], targetDir)).value))
  {
  }

  /** On a Windows host the URL `save` resolves with holds no backslash. */
  lemma SaveUrlHasNoHostSeparator(host: Host, cfg: Config, fs: Fs, file: UploadFile, kind: Option<string>,
                                  targetDir: Option<string>, io: SaveIo)
    requires host.sep != '/'
    requires Save(host, cfg, fs, file, kind, targetDir, io).outcome.Resolved?
    ensures host.sep !in Save(host, cfg, fs, file, kind, targetDir, io).outcome.value
  {
  }
}
