/**
 * An abstract disk: regular files with their bytes and a set of directories,
 * both keyed by full path. The fs-extra primitives the store calls
 * (`mkdirs`/`ensureDir`, `copy`, `remove`, `stat`) are transitions of it.
 */
module FileSystem {
  import opened Values
  import opened Paths

  datatype Fs = Fs(files: map<string, Bytes>, dirs: set<string>)

  /** Something, file or directory, is at `p`. */
  predicate Present(fs: Fs, p: string)
  {
    p in fs.files || p in fs.dirs
  }

  /** Nothing is at or beneath `root`. */
  predicate Clear(fs: Fs, root: string, sep: char)
  {
    && (forall q :: q in fs.files ==> !Within(q, root, sep))
    && (forall q :: q in fs.dirs ==> !Within(q, root, sep))
  }

  /** The proper ancestors of `dir`: every prefix that ends just before a separator. */
  function Ancestors(dir: string, sep: char): (a: set<string>)
    ensures forall p :: p in a ==> |p| < |dir| && Beneath(p, dir, sep)
  {
    set i | 0 < i < |dir| && dir[i] == sep :: dir[..i]
  }

  /** `mkdirs(dir)`: the directory and its missing ancestors exist afterwards; no file changes. */
  function Mkdirs(fs: Fs, dir: string, sep: char): (r: Fs)
    ensures r.files == fs.files
    ensures dir in r.dirs && fs.dirs <= r.dirs
    ensures forall p :: p in r.dirs && p !in fs.dirs ==> p == dir || p in Ancestors(dir, sep)
  {
    fs.(dirs := fs.dirs + {dir} + Ancestors(dir, sep))
  }

  /** Creating a directory that was just created changes nothing. */
  lemma MkdirsIdempotent(fs: Fs, dir: string, sep: char)
    ensures Mkdirs(Mkdirs(fs, dir, sep), dir, sep) == Mkdirs(fs, dir, sep)
  {
  }

  /** Writing `bytes` to `p`, replacing any previous file there. */
  function Write(fs: Fs, p: string, bytes: Bytes): (r: Fs)
    ensures p in r.files && r.files[p] == bytes
    ensures r.dirs == fs.dirs
    ensures forall q :: q != p ==> (q in r.files <==> q in fs.files)
    ensures forall q :: q != p && q in fs.files ==> r.files[q] == fs.files[q]
  {
    fs.(files := fs.files[p := bytes])
  }

  /**
   * `copy(src, dst)`: the bytes of the file `src` are written to `dst`, which
   * is overwritten if it exists; `src` itself is kept. A missing source fails
   * with ENOENT and changes nothing.
   */
  function Copy(fs: Fs, src: string, dst: string): (r: Result<Fs, Fault>)
    ensures r.Ok? <==> src in fs.files
    ensures r.Err? ==> r.error == Fault("ENOENT")
    ensures r.Ok? ==> && dst in r.value.files && r.value.files[dst] == fs.files[src]
                      && src in r.value.files
                      && r.value.dirs == fs.dirs
                      && r.value.files.Keys == fs.files.Keys + {dst}
                      && forall q :: q in fs.files && q != dst ==> r.value.files[q] == fs.files[q]
  {
    if src in fs.files then Ok(Write(fs, dst, fs.files[src])) else Err(Fault("ENOENT"))
  }

  /**
   * `remove(p)`: `p` and everything beneath it are gone; it succeeds, changing
   * nothing, when `p` is absent. This is the remove-if-present behaviour of
   * fs-extra's `remove`, which is not part of this model, stated as a definition.
   */
  function Remove(fs: Fs, p: string, sep: char): (r: Fs)
    ensures Clear(r, p, sep)
    ensures forall q :: !Within(q, p, sep) ==> (q in r.files <==> q in fs.files)
    ensures forall q :: !Within(q, p, sep) ==> (q in r.dirs <==> q in fs.dirs)
    ensures forall q :: q in r.files ==> q in fs.files && r.files[q] == fs.files[q]
  {
    Fs(map q | q in fs.files && !Within(q, p, sep) :: fs.files[q],
       set q | q in fs.dirs && !Within(q, p, sep))
  }

  /** Removing what is not there is a successful no-op. */
  lemma RemoveAbsent(fs: Fs, p: string, sep: char)
    requires Clear(fs, p, sep)
    ensures Remove(fs, p, sep) == fs
  {
    var r := Remove(fs, p, sep);
    assert r.files == fs.files;
    assert r.dirs == fs.dirs;
  }

  /** Removing twice is removing once. */
  lemma RemoveIdempotent(fs: Fs, p: string, sep: char)
    ensures Remove(Remove(fs, p, sep), p, sep) == Remove(fs, p, sep)
  {
    RemoveAbsent(Remove(fs, p, sep), p, sep);
  }

  /**
   * `stat(p)`: succeeds (`None`) when something is at `p` and the host
   * raises no other error (`fault`, e.g. EACCES); otherwise reports the error.
   */
  function Stat(fs: Fs, p: string, fault: Option<Fault>): (err: Option<Fault>)
    ensures err.None? <==> Present(fs, p) && fault.None?
    ensures fault.None? && !Present(fs, p) ==> err == Some(Fault("ENOENT"))
  {
    if fault.Some? then fault
    else if Present(fs, p) then None
    else Some(Fault("ENOENT"))
  }
}
