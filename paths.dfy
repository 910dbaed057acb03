/**
 * The parts of `pathlib` the core depends on: a path's name, the normal form
 * `str(PurePosixPath(...))` gives, joining with `/`, and the filesystem queries
 * (`exists`, a recursive glob, `is_file`) over an abstract filesystem.
 */
module Paths {
  import opened Wrappers
  import opened PyStr
  import opened Sequences

  /** `PurePosixPath(p).name` for a normalised path: everything after the last "/". */
  function Name(p: string): (r: string)
    ensures '/' !in r
    ensures EndsWith(p, r)
    ensures |r| < |p| ==> p[|p| - |r| - 1] == '/'
  {
    match LastIndexOf(p, '/')
    case None => p
    case Some(i) => p[i + 1..]
  }

  /** The segments pathlib keeps: empty ones (from "//" or a trailing "/") and "." are dropped. */
  function KeptSegments(parts: seq<string>): (r: seq<string>)
    ensures forall i :: 0 <= i < |r| ==> r[i] != [] && r[i] != "." && r[i] in parts
    decreases |parts|
  {
    if |parts| == 0 then []
    else if parts[0] == [] || parts[0] == "." then KeptSegments(parts[1..])
    else
      var rest := KeptSegments(parts[1..]);
      assert forall i :: 0 <= i < |rest| ==> rest[i] in parts;
      [parts[0]] + rest
  }

  lemma {:induction false} KeptSegmentsConcat(a: seq<string>, b: seq<string>)
    ensures KeptSegments(a + b) == KeptSegments(a) + KeptSegments(b)
    decreases |a|
  {
    if |a| > 0 {
      assert (a + b)[1..] == a[1..] + b;
      KeptSegmentsConcat(a[1..], b);
    } else {
      assert a + b == b;
    }
  }

  /** `str(PurePosixPath(s))`. */
  function NormalizePath(s: string): string {
    var body := Join(KeptSegments(Split(s, '/')), '/');
    if StartsWith(s, "/") then "/" + body
    else if body == [] then "."
    else body
  }

  /** `str(PurePosixPath(base) / rel)`: an absolute `rel` replaces `base`. */
  function JoinPath(base: string, rel: string): string {
    if StartsWith(rel, "/") then NormalizePath(rel) else NormalizePath(base + "/" + rel)
  }

  /** A trailing "/" does not change the path: `Path("a/b/") == Path("a/b")`. */
  lemma NormalizeTrailingSlash(s: string)
    requires s != []
    ensures NormalizePath(s + "/") == NormalizePath(s)
  {
    SplitTrailingSeparator(s, '/');
    assert Split(s + "/", '/') == Split(s, '/') + [[]];
    KeptSegmentsConcat(Split(s, '/'), [[]]);
    assert KeptSegments([[]]) == [];
    assert KeptSegments(Split(s + "/", '/')) == KeptSegments(Split(s, '/'));
    assert (s + "/")[..1] == s[..1];
    assert StartsWith(s + "/", "/") == StartsWith(s, "/");
  }

  /** Joining a relative part with or without a trailing "/" names the same directory. */
  lemma JoinPathTrailingSlash(base: string, rel: string)
    requires rel != []
    ensures JoinPath(base, rel + "/") == JoinPath(base, rel)
  {
    assert (rel + "/")[..1] == rel[..1];
    if StartsWith(rel, "/") {
      NormalizeTrailingSlash(rel);
    } else {
      assert base + "/" + (rel + "/") == (base + "/" + rel) + "/";
      NormalizeTrailingSlash(base + "/" + rel);
    }
  }

  /** A directory entry: its normalised path and whether it is a regular file. */
  datatype Entry = Entry(path: string, isFile: bool)

  /**
   * The filesystem as the core sees it: whether a path exists, and the entries
   * below a directory in the order pathlib's recursive glob visits them.
   */
  datatype FileSystem = FileSystem(pathExists: string -> bool, walk: string -> seq<Entry>)

  /** The step of `directory.rglob("*" + suffix)`: an entry matches when its name ends with `suffix`. */
  function GlobStep(suffix: string, e: Entry): Option<Entry> {
    if EndsWith(Name(e.path), suffix) then Some(e) else None
  }

  /** `directory.rglob("*" + suffix)`: matching entries below `directory`, in walk order. */
  function Glob(fs: FileSystem, directory: string, suffix: string): seq<Entry> {
    FilterMap(fs.walk(directory), e => GlobStep(suffix, e))
  }

  /** Every entry the glob yields is one the walk visits, and its name has the suffix. */
  lemma GlobMembership(fs: FileSystem, directory: string, suffix: string, e: Entry)
    ensures e in Glob(fs, directory, suffix) <==> e in fs.walk(directory) && EndsWith(Name(e.path), suffix)
  {
    var walk := fs.walk(directory);
    FilterMapMembership(walk, x => GlobStep(suffix, x), e);
    if e in walk && EndsWith(Name(e.path), suffix) {
      var i :| 0 <= i < |walk| && walk[i] == e;
      assert GlobStep(suffix, walk[i]) == Some(e);
    }
  }
}
