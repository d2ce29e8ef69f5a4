/**
 * The theme download handler of `serve({isTheme: true, name})`: one run per
 * request, as a state machine. The theme directory is zipped into a fresh
 * workspace `join(tmpdir, uid)`; on success the headers are set and the
 * archive is streamed, on failure the error goes to `next`; in both cases the
 * workspace is removed last.
 */
module ThemeDownload {
  import opened Values
  import opened Settings
  import opened Paths
  import opened FileSystem

  // ---------------------------------------------------------------------------
  // The Content-Disposition header

  const DispositionPrefix: string := "attachment; filename="
  const Placeholder: string := "{themeName}"
  const DispositionSuffix: string := ".zip"

  /**
   * The replacement-string expansion of ECMAScript `String.prototype.replace`
   * (GetSubstitution) for a string pattern: `$$` is `$`, `$&` the matched
   * text, `` $` `` the text before the match and `$'` the text after it;
   * every other character, including any other `$`, stands for itself.
   * A replacement without `$` is therefore inserted verbatim.
   */
  function Substitute(replacement: string, matched: string, before: string, after: string): (r: string)
    ensures '$' !in replacement ==> r == replacement
    decreases |replacement|
  {
    if replacement == [] then []
    else if |replacement| >= 2 && replacement[0] == '$' && replacement[1] in "$&`'" then
      var piece :=
        if replacement[1] == '$' then "$"
        else if replacement[1] == '&' then matched
        else if replacement[1] == '`' then before
        else after;
      piece + Substitute(replacement[2..], matched, before, after)
    else
      [replacement[0]] + Substitute(replacement[1..], matched, before, after)
  }

  /**
   * The header as the handler builds it: the template
   * `attachment; filename=` + placeholder + `.zip`, with its one placeholder
   * replaced by the theme name through `String.prototype.replace`. Whatever
   * the name, the header keeps the template's prefix and suffix.
   */
  function DispositionAsWritten(themeName: string): (header: string)
    ensures |DispositionPrefix| + |DispositionSuffix| <= |header|
    ensures header[..|DispositionPrefix|] == DispositionPrefix
    ensures header[|header| - |DispositionSuffix|..] == DispositionSuffix
  {
    var middle := Substitute(themeName, Placeholder, DispositionPrefix, DispositionSuffix);
    var header := DispositionPrefix + middle + DispositionSuffix;
    assert header[..|DispositionPrefix|] == DispositionPrefix;
    assert header[|header| - |DispositionSuffix|..] == DispositionSuffix;
    header
  }

  /** The header as intended: the theme name inserted literally, no quotes. */
  function Disposition(themeName: string): (header: string)
    ensures FileNameOf(header) == Some(themeName + ".zip")
  {
    assert (DispositionPrefix + themeName + DispositionSuffix)[..|DispositionPrefix|] == DispositionPrefix;
    assert (DispositionPrefix + themeName + DispositionSuffix)[|DispositionPrefix|..] == themeName + ".zip";
    DispositionPrefix + themeName + DispositionSuffix
  }

  /** How a client reads the file name back from the header. */
  function FileNameOf(header: string): Option<string>
  {
    if |DispositionPrefix| <= |header| && header[..|DispositionPrefix|] == DispositionPrefix
    then Some(header[|DispositionPrefix|..])
    else None
  }

  /** For a theme name without `$` the header as built is the intended one. */
  lemma DispositionAsWrittenWithoutDollar(themeName: string)
    requires '$' !in themeName
    ensures DispositionAsWritten(themeName) == Disposition(themeName)
    ensures FileNameOf(DispositionAsWritten(themeName)) == Some(themeName + ".zip")
  {
  }

  /** The theme name `$&` makes the header as built name the file `{themeName}.zip`. */
  lemma DispositionAsWrittenCounterexample()
    ensures DispositionAsWritten("$&") == "attachment; filename={themeName}.zip"
    ensures FileNameOf(DispositionAsWritten("$&")) != Some("$&" + ".zip")
  {
    assert Substitute("$&", Placeholder, DispositionPrefix, DispositionSuffix) == Placeholder;
    var h := DispositionAsWritten("$&");
    assert h == DispositionPrefix + Placeholder + DispositionSuffix;
    assert h[|DispositionPrefix|..] == Placeholder + DispositionSuffix;
    assert (Placeholder + DispositionSuffix)[0] == '{';
  }

  // ---------------------------------------------------------------------------
  // The request as a state machine

  datatype Headers = Headers(disposition: string, contentType: string, contentLength: nat)

  /**
   * The headers set on success, as the handler sets them: the disposition
   * built by `replace`, the zip content type, and the length `zipFolder`
   * reported. For a name without `$` the file name reads back as `<name>.zip`.
   */
  function ZipHeaders(themeName: string, length: nat): (h: Headers)
    ensures h.contentType == "application/zip" && h.contentLength == length
    ensures |DispositionPrefix| <= |h.disposition| && h.disposition[..|DispositionPrefix|] == DispositionPrefix
    ensures '$' !in themeName ==> FileNameOf(h.disposition) == Some(themeName + ".zip")
  {
    var h := Headers(DispositionAsWritten(themeName), "application/zip", length);
    assert '$' !in themeName ==> FileNameOf(h.disposition) == Some(themeName + ".zip") by {
      if '$' !in themeName {
        DispositionAsWrittenWithoutDollar(themeName);
      }
    }
    h
  }

  /** What `zipFolder(themePath, zipPath)` does: write the archive and report its length, or fail, possibly leaving a partial file. */
  datatype ZipOutcome =
    | Zipped(archive: Bytes, length: nat)
    | ZipFailed(fault: Fault, partial: Option<Bytes>)

  /** The request's inputs from the host: `os.tmpdir()`, `utils.uid(10)`, and the outcomes of `ensureDir` and `zipFolder`. */
  datatype DownloadIo = DownloadIo(tmpdir: string, uid: string, ensureDir: Option<Fault>, zip: ZipOutcome)

  /** The handler's observable calls, in order. */
  datatype Effect =
    | EnsureDirCalled(dir: string)
    | ZipCalled(source: string, dest: string)
    | HeadersSet(headers: Headers)
    | Streamed(path: string, bytes: Bytes)
    | NextCalled(fault: Fault)
    | RemoveCalled(dir: string)

  /** Where the request is: the step it takes next, or Done. */
  datatype Phase = EnsureDir | Zip | Respond(length: nat) | Error(fault: Fault) | Cleanup | Done

  /**
   * One request: its phase, the disk now and at the start, the paths it
   * fixed when it began, and the calls made so far.
   */
  datatype Download = Download(
    phase: Phase,
    fs: Fs,
    before: Fs,
    themeName: string,
    themePath: string,
    workspace: string,
    zipPath: string,
    effects: seq<Effect>)

  predicate Succeeds(io: DownloadIo)
  {
    io.ensureDir.None? && io.zip.Zipped?
  }

  /** The error a failing request forwards: that of `ensureDir`, else that of `zipFolder`. */
  function FailureOf(io: DownloadIo): Fault
    requires !Succeeds(io)
  {
    if io.ensureDir.Some? then io.ensureDir.value else io.zip.fault
  }

  /**
   * The complete sequence of calls the handler makes, given the host's
   * outcomes: a reference for the machine below.
   */
  function Protocol(d: Download, io: DownloadIo): (p: seq<Effect>)
    ensures 3 <= |p| && p[|p| - 1] == RemoveCalled(d.workspace)
  {
    var start := [EnsureDirCalled(d.workspace)];
    if io.ensureDir.Some? then start + [NextCalled(io.ensureDir.value), RemoveCalled(d.workspace)]
    else
      var zipped := start + [ZipCalled(d.themePath, d.zipPath)];
      match io.zip
      case ZipFailed(fault, _) => zipped + [NextCalled(fault), RemoveCalled(d.workspace)]
      case Zipped(archive, length) =>
        zipped + [HeadersSet(ZipHeaders(d.themeName, length)), Streamed(d.zipPath, archive), RemoveCalled(d.workspace)]
  }

  /** Outside the workspace, files are as they were and only the workspace's ancestors may have become directories. */
  ghost predicate OutsideUnchanged(before: Fs, after: Fs, workspace: string, sep: char)
  {
    && (forall q :: !Within(q, workspace, sep) ==> (q in after.files <==> q in before.files))
    && (forall q :: q in after.files && q in before.files && !Within(q, workspace, sep) ==>
          after.files[q] == before.files[q])
    && (forall q :: q in before.dirs && !Within(q, workspace, sep) ==> q in after.dirs)
    && (forall q :: q in after.dirs && !Within(q, workspace, sep) ==>
          q in before.dirs || q in Ancestors(workspace, sep))
  }

  /** What holds of a request in each phase, for the outcomes `io`. */
  ghost predicate Inv(d: Download, io: DownloadIo, sep: char)
  {
    && d.workspace != ""
    && d.zipPath == Join(d.workspace, d.themeName + ".zip", sep)
    && OutsideUnchanged(d.before, d.fs, d.workspace, sep)
    && match d.phase
       case EnsureDir => d.effects == [] && d.fs == d.before
       case Zip => io.ensureDir.None? && d.effects == Protocol(d, io)[..1]
       case Respond(length) =>
         && Succeeds(io) && length == io.zip.length
         && d.zipPath in d.fs.files && d.fs.files[d.zipPath] == io.zip.archive
         && d.effects == Protocol(d, io)[..2]
       case Error(fault) =>
         && !Succeeds(io) && fault == FailureOf(io)
         && d.effects == Protocol(d, io)[..|Protocol(d, io)| - 2]
       case Cleanup => d.effects == Protocol(d, io)[..|Protocol(d, io)| - 1]
       case Done => d.effects == Protocol(d, io) && Clear(d.fs, d.workspace, sep)
  }

  function Rank(p: Phase): nat
  {
    match p
    case EnsureDir => 4
    case Zip => 3
    case Respond(_) => 2
    case Error(_) => 2
    case Cleanup => 1
    case Done => 0
  }

  /** The request as it starts: the paths it will use, nothing done yet. */
  function Begin(cfg: Config, themeName: string, fs: Fs, io: DownloadIo, sep: char): (d: Download)
    requires io.tmpdir != ""
    ensures d.phase == EnsureDir && Inv(d, io, sep)
    ensures d.workspace == Join(io.tmpdir, io.uid, sep)
    ensures d.zipPath == Join(d.workspace, themeName + ".zip", sep)
    ensures d.themePath == Join(cfg.themePath, themeName, sep)
  {
    var workspace := Join(io.tmpdir, io.uid, sep);
    Download(EnsureDir, fs, fs, themeName, Join(cfg.themePath, themeName, sep), workspace,
             Join(workspace, themeName + ".zip", sep), [])
  }

  /** One step of the promise chain. */
  function Step(d: Download, io: DownloadIo, sep: char): (r: Download)
    ensures r.(phase := d.phase, fs := d.fs, effects := d.effects) == d
  {
    match d.phase
    case EnsureDir =>
      var effects := d.effects + [EnsureDirCalled(d.workspace)];
      if io.ensureDir.Some? then d.(phase := Error(io.ensureDir.value), effects := effects)
      else d.(phase := Zip, fs := Mkdirs(d.fs, d.workspace, sep), effects := effects)
    case Zip =>
      var effects := d.effects + [ZipCalled(d.themePath, d.zipPath)];
      (match io.zip
       case Zipped(archive, length) =>
         d.(phase := Respond(length), fs := Write(d.fs, d.zipPath, archive), effects := effects)
       case ZipFailed(fault, partial) =>
         var fs := if partial.Some? then Write(d.fs, d.zipPath, partial.value) else d.fs;
         d.(phase := Error(fault), fs := fs, effects := effects))
    case Respond(length) =>
      // The stream reads the archive the zip step wrote.
      var bytes := if d.zipPath in d.fs.files then d.fs.files[d.zipPath] else [];
      d.(phase := Cleanup,
         effects := d.effects + [HeadersSet(ZipHeaders(d.themeName, length)), Streamed(d.zipPath, bytes)])
    case Error(fault) =>
      d.(phase := Cleanup, effects := d.effects + [NextCalled(fault)])
    case Cleanup =>
      d.(phase := Done, fs := Remove(d.fs, d.workspace, sep), effects := d.effects + [RemoveCalled(d.workspace)])
    case Done => d
  }

  /** Creating the workspace and its ancestors keeps the outside of the workspace as required. */
  lemma OutsideAfterMkdirs(before: Fs, fs: Fs, workspace: string, sep: char)
    requires OutsideUnchanged(before, fs, workspace, sep)
    ensures OutsideUnchanged(before, Mkdirs(fs, workspace, sep), workspace, sep)
  {
  }

  /** Writing a file beneath the workspace keeps the outside of the workspace as required. */
  lemma OutsideAfterWrite(before: Fs, fs: Fs, workspace: string, p: string, bytes: Bytes, sep: char)
    requires OutsideUnchanged(before, fs, workspace, sep)
    requires Beneath(workspace, p, sep)
    ensures OutsideUnchanged(before, Write(fs, p, bytes), workspace, sep)
  {
    assert Within(p, workspace, sep);
  }

  /** Removing the workspace keeps the outside of the workspace as required. */
  lemma OutsideAfterRemove(before: Fs, fs: Fs, workspace: string, sep: char)
    requires OutsideUnchanged(before, fs, workspace, sep)
    ensures OutsideUnchanged(before, Remove(fs, workspace, sep), workspace, sep)
  {
  }

  /** Each step keeps the invariant and moves the request towards Done. */
  lemma StepKeepsInv(d: Download, io: DownloadIo, sep: char)
    requires Inv(d, io, sep)
    ensures Inv(Step(d, io, sep), io, sep)
    ensures !d.phase.Done? ==> Rank(Step(d, io, sep).phase) < Rank(d.phase)
  {
    match d.phase
    case EnsureDir => EnsureDirStep(d, io, sep);
    case Zip => ZipStep(d, io, sep);
    case Respond(_) => RespondStep(d, io, sep);
    case Error(_) => ErrorStep(d, io, sep);
    case Cleanup => CleanupStep(d, io, sep);
    case Done =>
  }

  lemma EnsureDirStep(d: Download, io: DownloadIo, sep: char)
    requires Inv(d, io, sep) && d.phase.EnsureDir?
    ensures Inv(Step(d, io, sep), io, sep)
  {
    var r := Step(d, io, sep);
    var p := Protocol(d, io);
    assert Protocol(r, io) == p;
    if io.ensureDir.None? {
      OutsideAfterMkdirs(d.before, d.fs, d.workspace, sep);
      assert r.effects == p[..1];
    } else {
      assert r.effects == p[..|p| - 2];
    }
  }

  lemma ZipStep(d: Download, io: DownloadIo, sep: char)
    requires Inv(d, io, sep) && d.phase.Zip?
    ensures Inv(Step(d, io, sep), io, sep)
  {
    var r := Step(d, io, sep);
    var p := Protocol(d, io);
    assert Protocol(r, io) == p;
    match io.zip {
      case Zipped(archive, length) =>
        OutsideAfterWrite(d.before, d.fs, d.workspace, d.zipPath, archive, sep);
        assert r.effects == p[..2];
      case ZipFailed(fault, partial) =>
        if partial.Some? {
          OutsideAfterWrite(d.before, d.fs, d.workspace, d.zipPath, partial.value, sep);
        }
        assert r.effects == p[..|p| - 2];
    }
  }

  lemma RespondStep(d: Download, io: DownloadIo, sep: char)
    requires Inv(d, io, sep) && d.phase.Respond?
    ensures Inv(Step(d, io, sep), io, sep)
  {
    var r := Step(d, io, sep);
    var p := Protocol(d, io);
    assert Protocol(r, io) == p;
    assert r.effects == p[..|p| - 1];
  }

  lemma ErrorStep(d: Download, io: DownloadIo, sep: char)
    requires Inv(d, io, sep) && d.phase.Error?
    ensures Inv(Step(d, io, sep), io, sep)
  {
    var r := Step(d, io, sep);
    var p := Protocol(d, io);
    assert Protocol(r, io) == p;
    assert r.effects == p[..|p| - 1];
  }

  lemma CleanupStep(d: Download, io: DownloadIo, sep: char)
    requires Inv(d, io, sep) && d.phase.Cleanup?
    ensures Inv(Step(d, io, sep), io, sep)
  {
    var r := Step(d, io, sep);
    var p := Protocol(d, io);
    assert Protocol(r, io) == p;
    OutsideAfterRemove(d.before, d.fs, d.workspace, sep);
    assert r.effects == p;
  }

  /** Runs the request to its end. */
  function Run(d: Download, io: DownloadIo, sep: char): (r: Download)
    requires Inv(d, io, sep)
    ensures r.phase == Done
    ensures r.effects == Protocol(d, io)
    ensures Clear(r.fs, d.workspace, sep)
    ensures OutsideUnchanged(d.before, r.fs, d.workspace, sep)
    ensures r.(phase := d.phase, fs := d.fs, effects := d.effects) == d
    decreases Rank(d.phase)
  {
    if d.phase.Done? then d
    else
      StepKeepsInv(d, io, sep);
      Run(Step(d, io, sep), io, sep)
  }

  /**
   * The theme download for `themeName`: the workspace is `join(tmpdir, uid)`
   * and the archive `<workspace>/<themeName>.zip`; the run makes exactly the
   * calls of `Protocol` and leaves nothing at or beneath the workspace.
   */
  function DownloadTheme(cfg: Config, themeName: string, fs: Fs, io: DownloadIo, sep: char): (d: Download)
    requires io.tmpdir != ""
    ensures d.phase == Done
    ensures d.workspace == Join(io.tmpdir, io.uid, sep)
    ensures d.zipPath == Join(d.workspace, themeName + ".zip", sep)
    ensures d.themePath == Join(cfg.themePath, themeName, sep)
    ensures d.effects == Protocol(d, io)
    ensures Clear(d.fs, d.workspace, sep)
    ensures OutsideUnchanged(fs, d.fs, d.workspace, sep)
  {
    Run(Begin(cfg, themeName, fs, io, sep), io, sep)
  }

  /** Every way the request ends, the workspace removal is the last call and the workspace is gone. */
  lemma CleanupOnEveryTerminalPath(cfg: Config, themeName: string, fs: Fs, io: DownloadIo, sep: char)
    requires io.tmpdir != ""
    ensures var d := DownloadTheme(cfg, themeName, fs, io, sep);
      && d.effects[|d.effects| - 1] == RemoveCalled(d.workspace)
      && !Present(d.fs, d.workspace)
  {
    var d := DownloadTheme(cfg, themeName, fs, io, sep);
    assert Within(d.workspace, d.workspace, sep);
  }

  /**
   * On success the protocol sets the headers, with the disposition built as
   * the handler builds it, streams the archive, and never calls `next`.
   */
  lemma ProtocolOnSuccess(d: Download, io: DownloadIo)
    requires Succeeds(io)
    ensures HeadersSet(Headers(DispositionAsWritten(d.themeName), "application/zip", io.zip.length))
            in Protocol(d, io)
    ensures Streamed(d.zipPath, io.zip.archive) in Protocol(d, io)
    ensures forall e :: e in Protocol(d, io) ==> !e.NextCalled?
  {
    var p := Protocol(d, io);
    var h := HeadersSet(ZipHeaders(d.themeName, io.zip.length));
    var s := Streamed(d.zipPath, io.zip.archive);
    assert p == [EnsureDirCalled(d.workspace), ZipCalled(d.themePath, d.zipPath), h, s, RemoveCalled(d.workspace)];
    assert p[2] == h && p[3] == s;
  }

  /** On failure the protocol forwards the error to `next` and writes no header or body. */
  lemma ProtocolOnFailure(d: Download, io: DownloadIo)
    requires !Succeeds(io)
    ensures NextCalled(FailureOf(io)) in Protocol(d, io)
    ensures forall e :: e in Protocol(d, io) ==> !e.HeadersSet? && !e.Streamed?
  {
    var p := Protocol(d, io);
    assert p[|p| - 2] == NextCalled(FailureOf(io));
  }

  /**
   * On success the headers are set and the archive is streamed, and `next`
   * is never called. The disposition is the one the handler builds; for a
   * theme name without `$` it is `attachment; filename=<name>.zip`.
   */
  lemma SuccessResponds(cfg: Config, themeName: string, fs: Fs, io: DownloadIo, sep: char)
    requires io.tmpdir != "" && Succeeds(io)
    ensures var d := DownloadTheme(cfg, themeName, fs, io, sep);
      && HeadersSet(Headers(DispositionAsWritten(themeName), "application/zip", io.zip.length)) in d.effects
      && ('$' !in themeName ==>
            HeadersSet(Headers("attachment; filename=" + themeName + ".zip", "application/zip", io.zip.length)) in d.effects)
      && Streamed(d.zipPath, io.zip.archive) in d.effects
      && forall e :: e in d.effects ==> !e.NextCalled?
  {
    var d := DownloadTheme(cfg, themeName, fs, io, sep);
    ProtocolOnSuccess(d, io);
    if '$' !in themeName {
      DispositionAsWrittenWithoutDollar(themeName);
      assert Disposition(themeName) == "attachment; filename=" + themeName + ".zip";
    }
  }

  /** On failure the error is forwarded to `next` and no header or body is written. */
  lemma FailureForwards(cfg: Config, themeName: string, fs: Fs, io: DownloadIo, sep: char)
    requires io.tmpdir != "" && !Succeeds(io)
    ensures var d := DownloadTheme(cfg, themeName, fs, io, sep);
      && NextCalled(FailureOf(io)) in d.effects
      && forall e :: e in d.effects ==> !e.HeadersSet? && !e.Streamed?
  {
    var d := DownloadTheme(cfg, themeName, fs, io, sep);
    ProtocolOnFailure(d, io);
  }

  /**
   * A request whose workspace was fresh leaves every file on disk as it
   * found it. The theme name is one plain segment: a name such as `../x`
   * would, once the host normalises the joined path, put the archive
   * beside the workspace rather than inside it.
   */
  lemma FreshWorkspaceLeavesFiles(cfg: Config, themeName: string, fs: Fs, io: DownloadIo, sep: char)
    requires io.tmpdir != "" && PlainName(themeName, sep)
    requires Clear(fs, Join(io.tmpdir, io.uid, sep), sep)
    ensures DownloadTheme(cfg, themeName, fs, io, sep).fs.files == fs.files
  {
    var d := DownloadTheme(cfg, themeName, fs, io, sep);
    forall q | q in fs.files
      ensures q in d.fs.files && d.fs.files[q] == fs.files[q]
    {
      assert !Within(q, d.workspace, sep);
    }
    assert d.fs.files.Keys == fs.files.Keys;
  }
}
