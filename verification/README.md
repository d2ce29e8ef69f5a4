# Local file store: a Dafny model

This project models the local-disk asset store of the content platform
(`core/server/storage/local-file-store.js`). The store saves uploaded images,
documents and theme bundles to disk, answers whether a path exists, deletes
files, and serves assets over HTTP. Theme bundles are served as a zip archive
built per request in a temporary workspace. Everything is pure functions over
immutable values:

- `values.dfy`: `Values` holds `Option`, `Result`, bytes, the host's error
  objects (`Fault`) and JavaScript truthiness of a string-or-`undefined`.
  `Settings` holds the configuration record (`config.paths`, the URL mount
  prefix `subdir`, the theme directory).
- `paths.dfy`: `Paths` holds `path.join`, and `path.relative` for a target
  beneath its base. It also holds the global rewrite of the host separator
  `path.sep` into `/`, and the public URL that `save` returns.
- `filesystem.dfy`: `FileSystem` is an abstract disk, a map from path to bytes
  plus a set of directories. The fs-extra calls the store makes are transitions
  of it: `mkdirs`/`ensureDir`, `copy`, `remove` and `stat`.
- `store.dfy`: `LocalFileStore` models `save`, `exists` and `delete`. A call
  ends in one of three ways: a synchronous throw (`Thrown`), a rejected
  promise (`Rejected`), or a resolved promise (`Resolved`). `save` also records
  the steps it issues, in order, including the error log on failure.
- `serving.dfy`: `Serving` models the handler that `serve(options)` selects,
  and the options it passes to the static file server.
- `theme_download.dfy`: `ThemeDownload` models the theme download request as
  a state machine: EnsureDir → Zip → Respond or Error → Cleanup → Done. Its
  main property is that the per-request workspace `join(tmpdir, uid)` is
  removed on every path, as the last call. Headers and the streamed archive
  appear only on success, and `next(err)` is called only on failure.

Things the store does not decide are inputs. The base store's
`getTargetDir` and `getUniqueFileName`, `path.sep`, and `path.relative` for
a target outside its base are function fields of `LocalFileStore.Host`. The
outcomes of the host's I/O calls (a `Fault` or success) are parameters. So are
`os.tmpdir()`, `utils.uid(10)` and what `utils.zipFolder` produces.

## Model

| member | source | states |
|---|---|---|
| Paths.ToUrlSeparators | core/server/storage/local-file-store.js:47 | the global replace turns every `path.sep` into `/` and keeps every other character. No separator is left when `sep` is `\`, and nothing changes when `sep` is `/` |
| Paths.ToUrlSeparatorsAppend | core/server/storage/local-file-store.js:46-47 | the rewrite distributes over concatenation, so separators inside `subdir` and the type's URL prefix are rewritten too |
| Paths.ToUrlSeparatorsIdempotent | core/server/storage/local-file-store.js:47 | rewriting a URL a second time changes nothing |
| Paths.ToUrlSeparatorsNoSeparator | core/server/storage/local-file-store.js:47 | a string without the separator passes through the rewrite unchanged |
| Paths.Join | core/server/storage/local-file-store.js:116 | `path.join(dir, name)`: an empty side contributes nothing. Otherwise the result lies strictly beneath `dir`, and the rest after `dir` and one separator is `name` |
| Paths.JoinPlainNameIsChild | core/server/storage/local-file-store.js:116 | a name that is one plain segment, joined onto a directory, is an immediate child of it: beneath it, with a separator-free remainder equal to the name |
| Paths.StripBase | core/server/storage/local-file-store.js:47 | `path.relative(base, target)` for a target beneath the base is the rest of the path after the base and one separator; joining it back gives the target |
| Paths.Relative | core/server/storage/local-file-store.js:47 | for a target beneath the base, base + separator + relative path is the target |
| Paths.RelativeOfJoin | core/server/storage/local-file-store.js:47 | `relative` undoes `join`: the relative path of `join(base, name)` is `name` |
| Paths.JoinOfRelative | core/server/storage/local-file-store.js:47 | `join` undoes `relative` for a target beneath the base |
| Paths.PublicUrl | core/server/storage/local-file-store.js:46-47 | the URL is `subdir/relPath/relative(base, target)` with every piece's separators rewritten. It never holds a `\` on Windows, and on POSIX it is the plain concatenation |
| Paths.UrlOfJoinedName | core/server/storage/local-file-store.js:46-47 | a file stored as `join(base, name)` gets the URL `subdir/relPath/name`, with `name`'s separators turned into `/` |
| FileSystem.Mkdirs | core/server/storage/local-file-store.js:40 | after `mkdirs(dir)` the directory exists. No file changes, and the only new directories are `dir` and its ancestors |
| FileSystem.MkdirsIdempotent | core/server/storage/local-file-store.js:40 | creating a directory that already exists changes nothing |
| FileSystem.Write | core/server/storage/local-file-store.js:83 | writing a file sets exactly that path and leaves every other file and all directories alone |
| FileSystem.Copy | core/server/storage/local-file-store.js:42 | `copy(src, dst)` succeeds exactly when the source file exists. `dst` then holds the source's bytes, the source is kept, and no other file changes. A missing source fails with ENOENT |
| FileSystem.Remove | core/server/storage/local-file-store.js:116-117 | after `remove(p)` nothing is at or beneath `p`. Everything else is as it was |
| FileSystem.RemoveAbsent | core/server/storage/local-file-store.js:117 | removing a path that has nothing at or beneath it succeeds and changes nothing |
| FileSystem.RemoveIdempotent | core/server/storage/local-file-store.js:117 | removing twice is removing once |
| FileSystem.Stat | core/server/storage/local-file-store.js:57 | `stat(p)` succeeds exactly when something is at `p` and the host raises no other error |
| LocalFileStore.Save | core/server/storage/local-file-store.js:27-53 | throws IncorrectUsage naming the file exactly when the type, its base path or its URL prefix is falsy, with the disk untouched and no step issued. The first step targets the `targetDir` argument if truthy, else `getTargetDir(base)`. Steps run in the order unique name, mkdirs, copy. A rejection is a logged storage error after a prefix of those steps. It resolves exactly when no step fails and the upload exists. Then the copy wrote the source's bytes to exactly the unique name, the source is kept, the directory exists, and the value is the public URL. A failure adds no file |
| LocalFileStore.SaveUsesChosenDir | core/server/storage/local-file-store.js:36-42 | a truthy `targetDir` argument is used as it is, otherwise `getTargetDir(config.paths[type + 'Path'])` is. The unique name is asked for in that directory, and the copy writes to exactly the name returned |
| LocalFileStore.Exists | core/server/storage/local-file-store.js:55-62 | `exists` is true exactly when `stat` succeeds, and false for a missing path. Its result is a plain boolean, so it has no rejecting outcome |
| LocalFileStore.Delete | core/server/storage/local-file-store.js:113-118 | removes exactly `join(dir, fileName)`, where `dir` is a truthy `targetDir` or else `getTargetDir(config.paths.imagesPath)` for any asset type. On success nothing is left at or beneath that path. Nothing outside that path changes. A failing `remove` is modelled as rejecting with the error and the disk unchanged |
| LocalFileStore.DeletePlainNameStaysInDir | core/server/storage/local-file-store.js:113-117 | for a file name that is one plain segment, the removed path is the immediate child of the directory with that name, and nothing outside the directory changes |
| LocalFileStore.DeleteMissingSucceeds | core/server/storage/local-file-store.js:113-117 | deleting a file that is not there resolves and leaves the disk as it was |
| LocalFileStore.ExistsAfterSave | core/server/storage/local-file-store.js:38-61 | after a successful `save`, `exists` on the written path is true |
| LocalFileStore.DeleteAfterSave | core/server/storage/local-file-store.js:38-117 | a file saved under `join(dir, name)` exists afterwards, and is gone after `delete(name, dir)` |
| LocalFileStore.SaveUrlHasNoHostSeparator | core/server/storage/local-file-store.js:44-47 | on a host whose separator is not `/`, the URL that `save` resolves with never contains that separator |
| Serving.StaticKind | core/server/storage/local-file-store.js:103 | the statically served type is never empty, because a falsy `options.type` defaults to `images` |
| Serving.Serve | core/server/storage/local-file-store.js:65-111 | `serve` returns the theme downloader for the given name exactly when `isTheme` is set. Otherwise it returns a static handler rooted at `config.paths[type + 'Path']`, with a one-year `maxAge` and fall-through disabled |
| Serving.ServeDefaultsToImages | core/server/storage/local-file-store.js:66-109 | with no options, or no truthy type, the static handler serves `imagesPath` |
| Serving.StaticRootIsSaveBase | core/server/storage/local-file-store.js:28-47 | after `save` resolves for a type, `serve` for that type returns the static handler rooted at `config.paths[type + 'Path']`, the base `save` used. The saved file is on disk, and when it lies beneath that base it is found at root + separator + the relative path the URL carries |
| ThemeDownload.Substitute | core/server/storage/local-file-store.js:87 | `String.prototype.replace` inserts a replacement string without `$` verbatim |
| ThemeDownload.DispositionAsWritten | core/server/storage/local-file-store.js:87 | the header as the code builds it always keeps the template's prefix `attachment; filename=` and its suffix `.zip`, whatever the theme name |
| ThemeDownload.Disposition | core/server/storage/local-file-store.js:87 | the header is `attachment; filename=<name>.zip`, unquoted, and reading the file name back gives `<name>.zip` |
| ThemeDownload.DispositionAsWrittenWithoutDollar | core/server/storage/local-file-store.js:87 | for a theme name without `$`, the header as the code builds it is the intended one |
| ThemeDownload.DispositionAsWrittenCounterexample | core/server/storage/local-file-store.js:87 | for the theme name `$&`, the header as the code builds it names the file `{themeName}.zip` |
| ThemeDownload.ZipHeaders | core/server/storage/local-file-store.js:86-90 | the success headers carry `application/zip`, the length that `zipFolder` reported, and the disposition as the code builds it. For a theme name without `$`, the file name reads back as `<name>.zip` |
| ThemeDownload.Protocol | core/server/storage/local-file-store.js:81-100 | every run makes at least three calls, and the last one removes the workspace |
| ThemeDownload.Begin | core/server/storage/local-file-store.js:72-79 | a request starts with the workspace `join(tmpdir, uid)`, the archive `join(workspace, name + '.zip')` and the theme folder `join(themePath, name)`, with nothing done yet |
| ThemeDownload.Step | core/server/storage/local-file-store.js:81-100 | a step of the chain changes only the phase, the disk and the calls made, never the request's paths |
| ThemeDownload.StepKeepsInv | core/server/storage/local-file-store.js:81-100 | each step keeps the per-phase invariant and moves the request strictly towards Done. The invariant says that the calls so far are a prefix of the protocol and that nothing outside the workspace changes |
| ThemeDownload.Run | core/server/storage/local-file-store.js:81-100 | running a request always reaches Done, having made exactly the protocol's calls, with nothing left at or beneath the workspace and nothing outside it changed |
| ThemeDownload.DownloadTheme | core/server/storage/local-file-store.js:72-101 | the whole request: the workspace and archive paths, exactly the protocol's calls, the workspace gone at the end, and no file outside it changed |
| ThemeDownload.CleanupOnEveryTerminalPath | core/server/storage/local-file-store.js:98-100 | on success and on failure alike, the last call removes the workspace and the workspace no longer exists |
| ThemeDownload.ProtocolOnSuccess | core/server/storage/local-file-store.js:85-94 | when the dir and the zip succeed, the protocol sets `Content-disposition` as line 87 builds it, `Content-Type: application/zip` and `Content-Length` (the length that `zipFolder` reported), then streams the archive, and never calls `next` |
| ThemeDownload.ProtocolOnFailure | core/server/storage/local-file-store.js:95-97 | when either step fails, the protocol passes that error to `next` and sets no header and streams no body |
| ThemeDownload.SuccessResponds | core/server/storage/local-file-store.js:85-94 | a successful request sets the three headers, with the disposition as line 87 builds it, and streams the archive that the zip step wrote. It does not call `next`. For a theme name without `$` the disposition is `attachment; filename=<name>.zip` |
| ThemeDownload.FailureForwards | core/server/storage/local-file-store.js:95-97 | a failed request calls `next(err)` with the failing step's error, and writes no header or body |
| ThemeDownload.FreshWorkspaceLeavesFiles | core/server/storage/local-file-store.js:77-100 | for a theme name that is one plain segment, if nothing was at or beneath the workspace before, every file on disk is as it was once the request ends |

## Left out

- `getUniqueFileName` and `getTargetDir` belong to the base store (`./base`), which is not part of this model. They are opaque fields of `Host`. There is no claim about uniqueness, a suffix scheme or termination. A name like `photo-1.jpg` for a second upload is the base store's choice and is not modelled.
- Paths.Join: models `path.join` only for clean segments. It does not normalise `.` or `..` segments, doubled or trailing separators, or Windows drive and UNC prefixes. So a joined path lies textually beneath its directory even where the host would resolve it elsewhere: `join("/c/images/2016", "../x")` is `/c/images/x` to the host.
- Paths.Relative: models `path.relative` only for a target strictly beneath its base. Any other pair is answered by the opaque `Host.relativeOutside`, because the general case resolves against the working directory and, on Windows, compares case-insensitively. The remainder after the base is taken verbatim: trailing or doubled separators and `.` segments are not normalised. So `relative("/a", "/a/b/")` is `b/` in the model but `b` to the host.
- Paths.StripBase: takes the remainder verbatim, as Paths.Relative does.
- FileSystem.Copy: copying a directory source is not modelled, because uploads are single files. A copy fault leaves the disk unchanged. The partial file that an interrupted copy can leave is not modelled.
- FileSystem.Mkdirs: a failing `mkdirs` is a `Fault` input that leaves the disk unchanged. Directories it may have half-created are not modelled.
- FileSystem.Remove: the remove-if-present, succeed-if-absent behaviour of fs-extra's `remove` is this model's definition. fs-extra itself is not part of this model.
- ThemeDownload.Step: the source does not await `remove(zipBasePath)` in `finally`, so a failing removal is an unhandled rejection there. The model treats the removal as done.
- ThemeDownload.Step: the model reads the archive into the response before the workspace is removed. In the source, `finally` starts the removal as soon as `pipe()` is set up, not after the stream ends. Stream scheduling is concurrency, which is not modelled.
- ThemeDownload.DownloadTheme: requires a non-empty `tmpdir`. `os.tmpdir()` always returns a non-empty path.
- An exception thrown by `res.set` or `fs.createReadStream` inside the success handler would be passed to `next`. This path is not modelled.
- Express `serveStatic`/`send` (404s, cache headers on the wire) is a foreign library. Only the options handed to it are modelled.
- `utils.zipFolder`, `utils.uid`, `os.tmpdir` and stream piping are inputs of the theme-download machine, not computations. `ZipOutcome` carries the length `zipFolder` reports separately from the archive bytes.
- `utils.ONE_YEAR_MS` is taken to be a 365-day year in milliseconds. `utils` is not part of this model.
- Promise scheduling, concurrent requests, and the unlocked check-then-copy race between `getUniqueFileName` and `copy` are not modelled.
- `errors.logError` appears only as a `LogError` step in the trace of `save`. Configuration loading is a `Config` record. `subdir` and `themePath` are assumed always set.
- An `undefined` and an empty `type`, `targetDir` or base path are both falsy and take the same branch. The model represents them as `None` and `Some("")`.
- Serve options: `isTheme` is a boolean and the theme `name` a string. An undefined name, for which `path.join` would throw, is not modelled.
- The `Content-disposition` header is set with the file name unquoted, as the code sets it.
- LocalFileStore.Delete: the frame "nothing outside `join(dir, fileName)` changes" is about the joined path as text. For a file name with a `..` segment or a separator, such as `delete("../x", "/c/images/2016")`, the host removes `/c/images/x`, outside `dir`. LocalFileStore.DeletePlainNameStaysInDir states the confinement for plain names only.
- LocalFileStore.Delete: a failing `remove` is modelled as rejecting with the disk unchanged. fs-extra's `remove` can fail after it has already removed part of a directory tree; that partial removal is not modelled.
- ThemeDownload.DownloadTheme: the workspace frame is about the joined paths as text. A theme name such as `../x` makes the host write the archive beside the workspace, outside it, and that archive is not removed. ThemeDownload.FreshWorkspaceLeavesFiles is stated for plain theme names only.
- ThemeDownload.Step: the request machine builds the header as line 87 does (ThemeDownload.DispositionAsWritten), not the corrected ThemeDownload.Disposition of the finding below. The two agree for every theme name without `$`.

## Findings

| source | as written | input that shows it | evidently intended | confidence | as-written member | corrected member |
|---|---|---|---|---|---|---|
| core/server/storage/local-file-store.js:87 | The header is built with `String.prototype.replace`, which reads `$$`, `$&`, `` $` `` and `$'` in the theme name as replacement patterns | theme name `$&` gives `attachment; filename={themeName}.zip` | the theme name inserted literally: `attachment; filename=$&.zip` | not executed; the replacement patterns follow the ECMAScript definition of `replace` with a string pattern | ThemeDownload.DispositionAsWritten (with ThemeDownload.DispositionAsWrittenCounterexample) | ThemeDownload.Disposition |
