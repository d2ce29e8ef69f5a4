/** Which request handler `serve(options)` hands to the HTTP layer. */
module Serving {
  import opened Values
  import opened Settings
  import opened Paths
  import opened FileSystem
  import opened LocalFileStore

  /** `utils.ONE_YEAR_MS`: one 365-day year in milliseconds. */
  const OneYearMs: nat := 365 * 24 * 60 * 60 * 1000

  /** The `options` argument of `serve`: `isTheme`, the theme `name` and the asset `type`. */
  datatype ServeOptions = ServeOptions(isTheme: bool, name: string, kind: Option<string>)

  /** The options passed to express's static handler. */
  datatype StaticOptions = StaticOptions(maxAge: nat, fallthrough: bool)

  datatype Handler =
    | ThemeDownloader(themeName: string)
    | StaticServer(root: Option<string>, options: StaticOptions)

  /** The asset type served statically: `options.type`, defaulting to `images`. */
  function StaticKind(options: Option<ServeOptions>): (k: string)
    ensures k != ""
  {
    if options.Some? && Truthy(options.value.kind) then options.value.kind.value else "images"
  }

  /**
   * `serve(options)`: a theme downloader for `options.isTheme`, otherwise a
   * static handler rooted at `config.paths[type + 'Path']` that caches for a
   * year and answers a missing file itself (no fall-through).
   */
  function Serve(paths: map<string, string>, options: Option<ServeOptions>): (h: Handler)
    ensures h.ThemeDownloader? <==> options.Some? && options.value.isTheme
    ensures h.ThemeDownloader? ==> h.themeName == options.value.name
    ensures h.StaticServer? ==>
      && h.options.maxAge == OneYearMs
      && !h.options.fallthrough
      && h.root == Lookup(paths, StaticKind(options) + "Path")
  {
    if options.Some? && options.value.isTheme then ThemeDownloader(options.value.name)
    else StaticServer(Lookup(paths, StaticKind(options) + "Path"), StaticOptions(OneYearMs, false))
  }

  /** Without options, or without a truthy `type`, images are served. */
  lemma ServeDefaultsToImages(paths: map<string, string>, options: Option<ServeOptions>)
    requires options.None? || (!options.value.isTheme && !Truthy(options.value.kind))
    ensures Serve(paths, options) == StaticServer(Lookup(paths, "imagesPath"), StaticOptions(OneYearMs, false))
  {
    assert StaticKind(options) + "Path" == "imagesPath";
  }

  /**
   * The static handler for a type is rooted at the base directory `save`
   * used for that type: a file `save` stored beneath the base is found under
   * the handler's root at the relative path its URL carries.
   */
  lemma StaticRootIsSaveBase(host: Host, cfg: Config, fs: Fs, file: UploadFile, kind: string,
                             targetDir: Option<string>, io: SaveIo)
    requires Save(host, cfg, fs, file, Some(kind), targetDir, io).outcome.Resolved?
    ensures var base := cfg.paths[kind + "Path"];
      var target := host.uniqueName(fs, file, SaveDir(host, base, targetDir)).value;
      var h := Serve(cfg.paths, Some(ServeOptions(false, "", Some(kind))));
      && h == StaticServer(Some(base), StaticOptions(OneYearMs, false))
      && target in Save(host, cfg, fs, file, Some(kind), targetDir, io).fs.files
      && (Beneath(base, target, host.sep) ==>
            h.root.value + [host.sep] + Relative(base, target, host.sep, host.relativeOutside) == target)
  {
    assert StaticKind(Some(ServeOptions(false, "", Some(kind)))) == kind;
  }
}
