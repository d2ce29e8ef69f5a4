/**
 * Path and URL string work done by the local file store: `path.join`,
 * `path.relative` for a target beneath its base, and the rewrite of every
 * host path separator (`path.sep`) into the URL separator `/`.
 */
module Paths {

  /**
   * `path.join(dir, name)` for clean segments: an empty side contributes
   * nothing, otherwise one separator is put between the two. The result is
   * not normalised: `.` and `..` segments and doubled separators are kept as
   * they are, so the result lies textually beneath `dir` whatever `name` is.
   */
  function Join(dir: string, name: string, sep: char): (p: string)
    ensures dir == "" ==> p == name
    ensures name == "" ==> p == dir
    ensures dir != "" && name != "" ==> Beneath(dir, p, sep) && p[|dir| + 1..] == name
  {
    if dir == "" then name
    else if name == "" then dir
    else dir + [sep] + name
  }

  /** `target` lies strictly beneath the directory `base`. */
  predicate Beneath(base: string, target: string, sep: char)
  {
    base != "" && |base| < |target| && target[..|base|] == base && target[|base|] == sep
  }

  /** `p` is the directory `root` itself or something beneath it. */
  predicate Within(p: string, root: string, sep: char)
  {
    p == root || Beneath(root, p, sep)
  }

  /**
   * A name that is one plain path segment: not empty, no separator of
   * either kind, and not `.` or `..`. Joined onto a directory, such a name
   * denotes an immediate child of that directory even after the host's
   * normalisation.
   */
  predicate PlainName(name: string, sep: char)
  {
    name != "" && sep !in name && '/' !in name && name != "." && name != ".."
  }

  /** Whatever lies beneath something beneath `base` lies beneath `base`. */
  lemma BeneathTransitive(base: string, mid: string, target: string, sep: char)
    requires Beneath(base, mid, sep) && Within(target, mid, sep)
    ensures Beneath(base, target, sep)
  {
    if target != mid {
      assert target[..|base|] == target[..|mid|][..|base|];
    }
  }

  /** A plain name joined onto a directory is an immediate child: one separator-free segment below it. */
  lemma JoinPlainNameIsChild(dir: string, name: string, sep: char)
    requires dir != "" && PlainName(name, sep)
    ensures Beneath(dir, Join(dir, name, sep), sep)
    ensures sep !in StripBase(dir, Join(dir, name, sep), sep)
    ensures StripBase(dir, Join(dir, name, sep), sep) == name
  {
  }

  /** `path.relative(base, target)` when `target` is beneath `base`: strip the base and one separator. */
  function StripBase(base: string, target: string, sep: char): (rel: string)
    requires Beneath(base, target, sep)
    ensures base + [sep] + rel == target
    ensures rel != "" ==> Join(base, rel, sep) == target
  {
    assert target == target[..|base|] + [target[|base|]] + target[|base| + 1..];
    target[|base| + 1..]
  }

  /**
   * `path.relative(base, target)`. Only the case where the target is beneath
   * the base is modelled; any other pair is answered by the host's own
   * `outside` function, left opaque.
   */
  function Relative(base: string, target: string, sep: char, outside: (string, string) -> string): (rel: string)
    ensures Beneath(base, target, sep) ==> base + [sep] + rel == target
  {
    if Beneath(base, target, sep) then StripBase(base, target, sep) else outside(base, target)
  }

  /** `relative` undoes `join`: the relative path of a joined name is that name. */
  lemma RelativeOfJoin(base: string, name: string, sep: char, outside: (string, string) -> string)
    requires base != "" && name != ""
    ensures Relative(base, Join(base, name, sep), sep, outside) == name
  {
    var rel := Relative(base, Join(base, name, sep), sep, outside);
    assert base + [sep] + rel == base + [sep] + name;
    assert rel == (base + [sep] + rel)[|base| + 1..];
  }

  /** `join` undoes `relative`: joining the relative path back onto the base gives the target. */
  lemma JoinOfRelative(base: string, target: string, sep: char, outside: (string, string) -> string)
    requires Beneath(base, target, sep)
    requires target != base + [sep]
    ensures Join(base, Relative(base, target, sep, outside), sep) == target
  {
  }

  /**
   * `s.replace(new RegExp('\\' + sep, 'g'), '/')`: a global replace of the
   * separator character by `/`.
   */
  function ToUrlSeparators(s: string, sep: char): (r: string)
    ensures |r| == |s|
    ensures forall i :: 0 <= i < |s| && s[i] == sep ==> r[i] == '/'
    ensures forall i :: 0 <= i < |s| && s[i] != sep ==> r[i] == s[i]
    ensures sep != '/' ==> sep !in r
    ensures sep == '/' ==> r == s
  {
    if s == [] then []
    else [if s[0] == sep then '/' else s[0]] + ToUrlSeparators(s[1..], sep)
  }

  /** The rewrite works character by character, so it distributes over concatenation. */
  lemma {:induction false} ToUrlSeparatorsAppend(a: string, b: string, sep: char)
    ensures ToUrlSeparators(a + b, sep) == ToUrlSeparators(a, sep) + ToUrlSeparators(b, sep)
  {
    if a == [] {
      assert a + b == b;
    } else {
      assert (a + b)[1..] == a[1..] + b;
      ToUrlSeparatorsAppend(a[1..], b, sep);
    }
  }

  /** Rewriting twice is rewriting once: a URL is already in URL form. */
  lemma {:induction false} ToUrlSeparatorsIdempotent(s: string, sep: char)
    ensures ToUrlSeparators(ToUrlSeparators(s, sep), sep) == ToUrlSeparators(s, sep)
  {
    if s != [] {
      var r := ToUrlSeparators(s, sep);
      ToUrlSeparatorsIdempotent(s[1..], sep);
      assert r == [r[0]] + ToUrlSeparators(s[1..], sep);
      assert r[1..] == ToUrlSeparators(s[1..], sep);
    }
  }

  /**
   * The public URL `save` returns: the URL mount prefix, the type's URL
   * prefix and the file's path relative to the type's base directory, joined
   * by `/`, with every host separator then rewritten to `/`.
   */
  function PublicUrl(subdir: string, relPrefix: string, base: string, target: string, sep: char,
                     outside: (string, string) -> string): (url: string)
    ensures sep != '/' ==> sep !in url
    ensures sep == '/' ==> url == subdir + "/" + relPrefix + "/" + Relative(base, target, sep, outside)
    ensures Beneath(base, target, sep) ==>
      url == ToUrlSeparators(subdir, sep) + "/" + ToUrlSeparators(relPrefix, sep) + "/"
             + ToUrlSeparators(StripBase(base, target, sep), sep)
  {
    var raw := subdir + "/" + relPrefix + "/" + Relative(base, target, sep, outside);
    UrlPieces(subdir, relPrefix, Relative(base, target, sep, outside), sep);
    ToUrlSeparators(raw, sep)
  }

  /** The separator rewrite of the four-part URL, piece by piece. */
  lemma UrlPieces(subdir: string, relPrefix: string, rel: string, sep: char)
    ensures ToUrlSeparators(subdir + "/" + relPrefix + "/" + rel, sep)
      == ToUrlSeparators(subdir, sep) + "/" + ToUrlSeparators(relPrefix, sep) + "/" + ToUrlSeparators(rel, sep)
  {
    ToUrlSeparatorsAppend(subdir + "/" + relPrefix + "/", rel, sep);
    ToUrlSeparatorsAppend(subdir + "/" + relPrefix, "/", sep);
    ToUrlSeparatorsAppend(subdir + "/", relPrefix, sep);
    ToUrlSeparatorsAppend(subdir, "/", sep);
  }

  /** A separator-free string is left alone by the rewrite. */
  lemma {:induction false} ToUrlSeparatorsNoSeparator(s: string, sep: char)
    requires sep !in s
    ensures ToUrlSeparators(s, sep) == s
  {
    if s != [] {
      ToUrlSeparatorsNoSeparator(s[1..], sep);
    }
  }

  /**
   * For a file stored as `join(base, name)`, the URL is the two prefixes and
   * the name, each with its separators rewritten; prefixes that hold no
   * separator (as URL prefixes normally do on Windows) pass through
   * untouched, and on a POSIX host nothing is rewritten at all.
   */
  lemma UrlOfJoinedName(subdir: string, relPrefix: string, base: string, name: string, sep: char,
                        outside: (string, string) -> string)
    requires base != "" && name != ""
    requires sep == '/' || (sep !in subdir && sep !in relPrefix)
    ensures PublicUrl(subdir, relPrefix, base, Join(base, name, sep), sep, outside)
            == subdir + "/" + relPrefix + "/" + ToUrlSeparators(name, sep)
  {
    RelativeOfJoin(base, name, sep, outside);
    if sep != '/' {
      ToUrlSeparatorsNoSeparator(subdir, sep);
      ToUrlSeparatorsNoSeparator(relPrefix, sep);
    }
  }
}
