/**
 * coltrane/retriever.py: where content and data files are found and how their
 * paths become URLs and data keys.
 *
 * The filesystem, the JSON decoder and the Markdown renderer are parameters:
 * `FileSystem` answers `exists` and the recursive glob, `decode` maps a data
 * file's path to its decoded value (None when decoding failed), `render` maps a
 * content file's path to its HTML and metadata.
 */
module Retriever {
  import opened Wrappers
  import opened PyStr
  import opened Sequences
  import opened Values
  import opened Paths

  /** `MARKDOWN_EXTENSION_LENGTH`: the length of ".md". */
  const MarkdownExtensionLength: nat := 3

  /** `FileNotFoundError` from `get_content_paths`. */
  datatype FsError = FileNotFound(directory: string)

  // ---------------------------------------------------------------------------
  // _add_data_from_path
  // ---------------------------------------------------------------------------

  /** `path.name.replace(".json5", "").replace(".json", "")`: the key a data file's value goes under. */
  function FileKey(name: string): string {
    RemoveAll(RemoveAll(name, ".json5"), ".json")
  }

  /** `str(path).replace(str(data_directory), "").replace(path.name, "")`. */
  function DirectoryPart(dataDirectory: string, path: string): string {
    RemoveAll(RemoveAll(path, dataDirectory), Name(path))
  }

  /** The pieces the `if key:` test lets through, in order. */
  function NonEmptySegments(parts: seq<string>): (r: seq<string>)
    ensures forall i :: 0 <= i < |r| ==> r[i] != [] && r[i] in parts
    ensures forall i :: 0 <= i < |parts| && parts[i] != [] ==> parts[i] in r
    decreases |parts|
  {
    if |parts| == 0 then []
    else
      var rest := NonEmptySegments(parts[1..]);
      assert forall i :: 1 <= i < |parts| ==> parts[i] == parts[1..][i - 1];
      if parts[0] == [] then rest else [parts[0]] + rest
  }

  /** The keys a data file is nested under: the non-empty "/"-separated pieces of its directory part. */
  function DirectoryKeys(dataDirectory: string, path: string): seq<string> {
    NonEmptySegments(Split(DirectoryPart(dataDirectory, path), '/'))
  }

  /** `leaf` wrapped in one single-key dictionary per key; the first key is the outermost. */
  function Nest(keys: seq<string>, leaf: Value): Value
    decreases |keys|
  {
    if keys == [] then leaf else Dict(map[keys[0] := Nest(keys[1..], leaf)])
  }

  /** `v` is a chain of one-key dictionaries along `keys` that ends in `leaf`. */
  predicate IsChain(v: Value, keys: seq<string>, leaf: Value)
    decreases |keys|
  {
    if keys == [] then v == leaf
    else v.Dict? && v.fields.Keys == {keys[0]} && IsChain(v.fields[keys[0]], keys[1..], leaf)
  }

  /** `v[keys[0]][keys[1]]...`, or None where a step is not a dictionary holding the key. */
  function Lookup(v: Value, keys: seq<string>): Option<Value>
    decreases |keys|
  {
    if keys == [] then Some(v)
    else if v.Dict? && keys[0] in v.fields then Lookup(v.fields[keys[0]], keys[1..])
    else None
  }

  /** Nesting builds exactly the one-key chain along the keys, and nothing else does. */
  lemma {:induction false} NestIsTheChain(v: Value, keys: seq<string>, leaf: Value)
    ensures IsChain(v, keys, leaf) <==> v == Nest(keys, leaf)
    decreases |keys|
  {
    if keys != [] {
      NestIsTheChain(Nest(keys[1..], leaf), keys[1..], leaf);
      if v.Dict? && keys[0] in v.fields {
        NestIsTheChain(v.fields[keys[0]], keys[1..], leaf);
        if v.fields.Keys == {keys[0]} && v.fields[keys[0]] == Nest(keys[1..], leaf) {
          assert v.fields == map[keys[0] := Nest(keys[1..], leaf)];
        }
      }
    }
  }

  /** Following the keys through the nesting reaches the leaf. */
  lemma {:induction false} NestLookup(keys: seq<string>, leaf: Value)
    ensures Lookup(Nest(keys, leaf), keys) == Some(leaf)
    decreases |keys|
  {
    if keys != [] {
      NestLookup(keys[1..], leaf);
    }
  }

  /** The dictionary `_add_data_from_path` hands to `dict_merge`, or None when it merges nothing. */
  function NewData(dataDirectory: string, e: Entry, decoded: Option<Value>): Option<Value> {
    if e.isFile && decoded.Some? && Truthy(decoded.value) then
      Some(Nest(DirectoryKeys(dataDirectory, e.path), Dict(map[FileKey(Name(e.path)) := decoded.value])))
    else None
  }

  /**
   * `_add_data_from_path` up to the call of `dict_merge`: builds `{file_name: value}`
   * and wraps it once per non-empty directory piece, innermost piece first.
   */
  method AddDataFromPath(dataDirectory: string, e: Entry, decoded: Option<Value>) returns (newData: Option<Value>)
    ensures newData.Some? <==> e.isFile && decoded.Some? && Truthy(decoded.value)
    ensures newData.Some? ==> IsChain(newData.value, DirectoryKeys(dataDirectory, e.path), Dict(map[FileKey(Name(e.path)) := decoded.value]))
    ensures newData == NewData(dataDirectory, e, decoded)
  {
    if !e.isFile {
      return None;
    }
    var directoryPart := DirectoryPart(dataDirectory, e.path);
    var fileName := FileKey(Name(e.path));
    if decoded.None? || !Truthy(decoded.value) {
      return None;
    }
    var leaf := Dict(map[fileName := decoded.value]);
    var nested := leaf;
    var parts := Split(directoryPart, '/');
    var i := |parts|;
    while i > 0
      invariant 0 <= i <= |parts|
      invariant nested == Nest(NonEmptySegments(parts[i..]), leaf)
    {
      i := i - 1;
      assert parts[i..][1..] == parts[i + 1..];
      if parts[i] != [] {
        nested := Dict(map[parts[i] := nested]);
      }
    }
    assert parts[0..] == parts;
    NestIsTheChain(nested, DirectoryKeys(dataDirectory, e.path), leaf);
    return Some(nested);
  }

  /** `.json` ends with a character that `.json5` lacks, so no name ends with both. */
  lemma ExtensionsExclusive(name: string)
    ensures !(EndsWith(name, ".json5") && EndsWith(name, ".json"))
  {
    if EndsWith(name, ".json5") && |name| >= 5 {
      assert name[|name| - 1] == '5';
      assert name[|name| - 5..][4] == name[|name| - 1];
    }
  }

  /** The name with ".json" at the end has no ".json5" in it when the stem has no ".json". */
  lemma NoJson5InJsonName(stem: string)
    requires !Contains(stem, ".json")
    ensures !Contains(stem + ".json", ".json5")
  {
    var s := stem + ".json";
    forall i | 0 <= i <= |s| - 6 ensures !OccursAt(s, ".json5", i) {
      if i + 5 <= |stem| {
        assert s[i..i + 5] == stem[i..i + 5];
        assert !OccursAt(stem, ".json", i);
        assert s[i..i + 6][..5] == s[i..i + 5];
      } else {
        assert s[|stem|] == '.';
        assert s[i..i + 6][|stem| - i] == s[|stem|];
      }
    }
  }

  /** A ".json5" in a string means a ".json" in it. */
  lemma Json5HasJson(s: string)
    requires Contains(s, ".json5")
    ensures Contains(s, ".json")
  {
    var i :| OccursAt(s, ".json5", i);
    assert s[i..i + 5] == s[i..i + 6][..5];
    assert OccursAt(s, ".json", i);
  }

  /**
   * The file key is the name without its extension whenever the stem itself has
   * no ".json" in it. (Elsewhere every occurrence is removed: see `FileKeyRemovesInside`.)
   */
  lemma FileKeyStripsExtension(stem: string)
    requires !Contains(stem, ".json")
    ensures FileKey(stem + ".json") == stem
    ensures FileKey(stem + ".json5") == stem
  {
    assert RemoveAll(stem + ".json", ".json5") == stem + ".json" by {
      NoJson5InJsonName(stem);
      RemoveAllAbsent(stem + ".json", ".json5");
    }
    RemoveAllTrailing(stem, ".json");
    assert !Contains(stem, ".json5") by {
      if Contains(stem, ".json5") { Json5HasJson(stem); }
    }
    RemoveAllTrailing(stem, ".json5");
    RemoveAllAbsent(stem, ".json");
  }

  /**
   * ".json" is removed wherever it occurs in the name, not only as the extension:
   * "a.jsonl.json" gives "al".
   */
  lemma FileKeyRemovesInside(a: string, b: string)
    requires '.' !in a && '.' !in b && '5' !in a && '5' !in b
    ensures FileKey(a + ".json" + b + ".json") == a + b
  {
    var name := a + ".json" + b + ".json";
    assert RemoveAll(name, ".json5") == name by {
      assert '5' !in name by {
        assert forall k :: 0 <= k < |name| ==> name[k] in a || name[k] in ".json" || name[k] in b;
      }
      MissingCharacter(name, ".json5", 5);
      RemoveAllAbsent(name, ".json5");
    }
    RemoveAllTwice(a, b, ".json");
  }

  /** The path pieces `dirs` as they appear between the data directory and the file name: "/" or "/a/b/". */
  function DirectoryInfix(dirs: seq<string>): string {
    "/" + Join(dirs + [[]], '/')
  }

  lemma {:induction false} DirectoryInfixSplit(dirs: seq<string>)
    requires forall i :: 0 <= i < |dirs| ==> dirs[i] != [] && '/' !in dirs[i]
    ensures Split(DirectoryInfix(dirs), '/') == [[]] + dirs + [[]]
    ensures DirectoryInfix(dirs)[|DirectoryInfix(dirs)| - 1] == '/'
  {
    var body := Join(dirs + [[]], '/');
    var parts := dirs + [[]];
    assert forall i :: 0 <= i < |parts| ==> '/' !in parts[i];
    SplitJoin(parts, '/');
    SplitAtSeparator([], '/', body);
    assert DirectoryInfix(dirs) == [] + ['/'] + body;
    if dirs == [] {
      assert body == [];
    } else {
      JoinAppendEmpty(dirs, '/');
    }
  }

  lemma {:induction false} NonEmptySegmentsOfDirs(dirs: seq<string>)
    requires forall i :: 0 <= i < |dirs| ==> dirs[i] != []
    ensures NonEmptySegments([[]] + dirs + [[]]) == dirs
    decreases |dirs|
  {
    var parts := [[]] + dirs + [[]];
    assert parts[1..] == dirs + [[]];
    NonEmptyPrefix(dirs);
  }

  lemma {:induction false} NonEmptyPrefix(dirs: seq<string>)
    requires forall i :: 0 <= i < |dirs| ==> dirs[i] != []
    ensures NonEmptySegments(dirs + [[]]) == dirs
    decreases |dirs|
  {
    if dirs == [] {
      assert NonEmptySegments([[]]) == NonEmptySegments([]);
    } else {
      assert (dirs + [[]])[1..] == dirs[1..] + [[]];
      NonEmptyPrefix(dirs[1..]);
    }
  }

  /** A normalised child path's name is its last piece. */
  lemma NameOfChild(prefix: string, name: string)
    requires name != [] && '/' !in name
    requires prefix != [] && prefix[|prefix| - 1] == '/'
    ensures Name(prefix + name) == name
  {
    var p := prefix + name;
    var r := Name(p);
    // no "/" after the prefix, and the name holds no "/": so the name is exactly what follows the prefix
    assert forall k :: |prefix| <= k < |p| ==> p[k] == name[k - |prefix|];
    assert forall k :: |prefix| <= k < |p| ==> p[k] != '/';
    assert p[|prefix| - 1] == '/';
    assert forall j :: 0 <= j < |r| ==> r[j] == p[|p| - |r| + j];
    assert |r| == |name|;
    assert r == p[|p| - |r|..] == name;
  }

  /** Both replacements of `DirectoryPart` strip exactly the data directory and the file name. */
  lemma DirectoryPartOfDataFile(dataDirectory: string, infix: string, name: string)
    requires dataDirectory != []
    requires name != [] && '/' !in name
    requires infix != [] && infix[|infix| - 1] == '/'
    requires !Contains(infix + name, dataDirectory)
    requires !Contains(infix, name)
    ensures DirectoryPart(dataDirectory, dataDirectory + infix + name) == infix
  {
    var path := dataDirectory + infix + name;
    assert Name(path) == name by {
      var prefix := dataDirectory + infix;
      assert path == prefix + name && prefix[|prefix| - 1] == '/';
      NameOfChild(prefix, name);
    }
    assert RemoveAll(path, dataDirectory) == infix + name by {
      assert path == dataDirectory + (infix + name);
      RemoveAllLeading(dataDirectory, infix + name);
      RemoveAllAbsent(infix + name, dataDirectory);
    }
    assert RemoveAll(infix + name, name) == infix by {
      assert infix[|infix| - 1] !in name;
      RemoveAllTrailing(infix, name);
    }
  }

  /**
   * The keys of a data file `<data>/d1/.../dn/<name>` are `[d1, ..., dn]`, outermost
   * first, provided the data directory's path does not recur after it and the
   * file name does not recur in the directories (the replacements would remove those too).
   */
  lemma DirectoryKeysOfDataFile(dataDirectory: string, dirs: seq<string>, name: string)
    requires dataDirectory != []
    requires name != [] && '/' !in name
    requires forall i :: 0 <= i < |dirs| ==> dirs[i] != [] && '/' !in dirs[i]
    requires !Contains(DirectoryInfix(dirs) + name, dataDirectory)
    requires !Contains(DirectoryInfix(dirs), name)
    ensures Name(dataDirectory + DirectoryInfix(dirs) + name) == name
    ensures DirectoryKeys(dataDirectory, dataDirectory + DirectoryInfix(dirs) + name) == dirs
  {
    var infix := DirectoryInfix(dirs);
    DirectoryInfixSplit(dirs);
    assert dataDirectory + infix + name == (dataDirectory + infix) + name;
    assert (dataDirectory + infix)[|dataDirectory + infix| - 1] == '/';
    NameOfChild(dataDirectory + infix, name);
    DirectoryPartOfDataFile(dataDirectory, infix, name);
    NonEmptySegmentsOfDirs(dirs);
  }

  lemma ExampleInfix()
    ensures DirectoryInfix(["some", "new", "test"]) == "/some/new/test/"
  {
    var dirs := ["some", "new", "test"];
    JoinAppendEmpty(dirs, '/');
    assert dirs[1..] == ["new", "test"] && dirs[1..][1..] == ["test"];
    assert Join(dirs, '/') == "some/new/test";
  }

  /** The directory keys and the file name of `<data>/some/new/test/here.json`. */
  lemma ExampleKeys(dataDirectory: string)
    requires dataDirectory != [] && !Contains("/some/new/test/here.json", dataDirectory)
    ensures Name(dataDirectory + "/some/new/test/here.json") == "here.json"
    ensures DirectoryKeys(dataDirectory, dataDirectory + "/some/new/test/here.json") == ["some", "new", "test"]
  {
    var dirs := ["some", "new", "test"];
    var infix := DirectoryInfix(dirs);
    ExampleInfix();
    assert infix + "here.json" == "/some/new/test/here.json";
    assert dataDirectory + infix + "here.json" == dataDirectory + "/some/new/test/here.json";
    MissingCharacter(infix, "here.json", 4);
    DirectoryKeysOfDataFile(dataDirectory, dirs, "here.json");
  }

  /** Three keys nest three dictionaries deep, the first outermost. */
  lemma NestThree(a: string, b: string, c: string, leaf: Value)
    ensures Nest([a, b, c], leaf) == Dict(map[a := Dict(map[b := Dict(map[c := leaf])])])
  {
    var keys := [a, b, c];
    assert keys[1..] == [b, c] && keys[1..][1..] == [c] && keys[1..][1..][1..] == [];
    assert Nest([c], leaf) == Dict(map[c := leaf]);
    assert Nest([b, c], leaf) == Dict(map[b := Nest([c], leaf)]);
  }

  /**
   * The example of retriever.py's comment: `<data>/some/new/test/here.json` holding
   * `v` contributes `{"some": {"new": {"test": {"here": v}}}}`.
   */
  lemma NestingExample(dataDirectory: string, v: Value)
    requires dataDirectory != [] && !Contains("/some/new/test/here.json", dataDirectory)
    requires Truthy(v)
    ensures NewData(dataDirectory, Entry(dataDirectory + "/some/new/test/here.json", true), Some(v))
         == Some(Dict(map["some" := Dict(map["new" := Dict(map["test" := Dict(map["here" := v])])])]))
  {
    ExampleKeys(dataDirectory);
    ExampleFileKey();
    NestThree("some", "new", "test", Dict(map["here" := v]));
  }

  /** The key of "here.json" is "here". */
  lemma ExampleFileKey()
    ensures FileKey("here.json") == "here"
  {
    MissingCharacter("here", ".json", 0);
    FileKeyStripsExtension("here");
    assert "here" + ".json" == "here.json";
  }

  /** A data file directly in the data directory is not wrapped: its value sits under its file key. */
  lemma TopLevelDataFile(dataDirectory: string, name: string, v: Value)
    requires dataDirectory != [] && name != [] && '/' !in name
    requires !Contains("/" + name, dataDirectory)
    requires Truthy(v)
    ensures NewData(dataDirectory, Entry(dataDirectory + "/" + name, true), Some(v)) == Some(Dict(map[FileKey(name) := v]))
  {
    var infix := DirectoryInfix([]);
    assert Join([[]], '/') == [];
    assert infix == "/";
    MissingCharacter(infix, name, 0);
    DirectoryKeysOfDataFile(dataDirectory, [], name);
  }

  // ---------------------------------------------------------------------------
  // get_data
  // ---------------------------------------------------------------------------

  /** The files `get_data` visits: every "*.json5" match, then every "*.json" match. */
  function DataFiles(fs: FileSystem, dataDirectory: string): seq<Entry> {
    Glob(fs, dataDirectory, ".json5") + Glob(fs, dataDirectory, ".json")
  }

  /** The dictionaries the data files `files` contribute, in order. */
  function DataUpdatesFrom(dataDirectory: string, decode: string -> Option<Value>, files: seq<Entry>): seq<Value> {
    FilterMap(files, (e: Entry) => NewData(dataDirectory, e, decode(e.path)))
  }

  /** The dictionaries `get_data` hands to `dict_merge`, in order. */
  function DataUpdatesOf(fs: FileSystem, dataDirectory: string, decode: string -> Option<Value>): seq<Value> {
    DataUpdatesFrom(dataDirectory, decode, DataFiles(fs, dataDirectory))
  }

  /**
   * `get_data` with the cache disabled, up to `dict_merge`: the nested
   * dictionaries its two loops pass to `dict_merge`, in the order they pass them.
   */
  method GetDataUpdates(fs: FileSystem, dataDirectory: string, decode: string -> Option<Value>)
    returns (updates: seq<Value>)
    ensures updates == DataUpdatesOf(fs, dataDirectory, decode)
  {
    var json5Updates := AddDataFromPaths(dataDirectory, decode, Glob(fs, dataDirectory, ".json5"));
    var jsonUpdates := AddDataFromPaths(dataDirectory, decode, Glob(fs, dataDirectory, ".json"));
    DataUpdatesJson5First(fs, dataDirectory, decode);
    updates := json5Updates + jsonUpdates;
  }

  /** One loop of `get_data`: `_add_data_from_path` for each matched path, in glob order. */
  method AddDataFromPaths(dataDirectory: string, decode: string -> Option<Value>, files: seq<Entry>)
    returns (updates: seq<Value>)
    ensures updates == DataUpdatesFrom(dataDirectory, decode, files)
  {
    updates := [];
    var i := 0;
    while i < |files|
      invariant 0 <= i <= |files|
      invariant updates == DataUpdatesFrom(dataDirectory, decode, files[..i])
    {
      var newData := AddDataFromPath(dataDirectory, files[i], decode(files[i].path));
      DataUpdatesStep(dataDirectory, decode, files, i);
      if newData.Some? {
        updates := updates + [newData.value];
      }
      i := i + 1;
    }
    assert files[..i] == files;
  }

  /** One more data file adds its update, if it yields one. */
  lemma DataUpdatesStep(dataDirectory: string, decode: string -> Option<Value>, files: seq<Entry>, i: nat)
    requires i < |files|
    ensures DataUpdatesFrom(dataDirectory, decode, files[..i + 1])
         == DataUpdatesFrom(dataDirectory, decode, files[..i]) + Kept(NewData(dataDirectory, files[i], decode(files[i].path)))
  {
    FilterMapStep(files, i, (e: Entry) => NewData(dataDirectory, e, decode(e.path)));
  }

  /** No data file is visited twice: the two globs never match the same entry. */
  lemma DataGlobsDisjoint(fs: FileSystem, dataDirectory: string, e: Entry)
    ensures !(e in Glob(fs, dataDirectory, ".json5") && e in Glob(fs, dataDirectory, ".json"))
  {
    GlobMembership(fs, dataDirectory, ".json5", e);
    GlobMembership(fs, dataDirectory, ".json", e);
    ExtensionsExclusive(Name(e.path));
  }

  /** An update is passed to `dict_merge` exactly when some data file yields it. */
  lemma DataUpdatesMembership(dataDirectory: string, decode: string -> Option<Value>, files: seq<Entry>, u: Value)
    ensures u in DataUpdatesFrom(dataDirectory, decode, files) <==>
      exists e :: e in files && NewData(dataDirectory, e, decode(e.path)) == Some(u)
  {
    var step := (e: Entry) => NewData(dataDirectory, e, decode(e.path));
    FilterMapMembership(files, step, u);
    if exists e :: e in files && NewData(dataDirectory, e, decode(e.path)) == Some(u) {
      var e :| e in files && NewData(dataDirectory, e, decode(e.path)) == Some(u);
      var i :| 0 <= i < |files| && files[i] == e;
      assert step(files[i]) == Some(u);
    }
  }

  /** All ".json5" files' updates come before all ".json" files' updates. */
  lemma DataUpdatesJson5First(fs: FileSystem, dataDirectory: string, decode: string -> Option<Value>)
    ensures DataUpdatesOf(fs, dataDirectory, decode)
         == DataUpdatesFrom(dataDirectory, decode, Glob(fs, dataDirectory, ".json5"))
          + DataUpdatesFrom(dataDirectory, decode, Glob(fs, dataDirectory, ".json"))
  {
    FilterMapConcat(Glob(fs, dataDirectory, ".json5"), Glob(fs, dataDirectory, ".json"),
                    (e: Entry) => NewData(dataDirectory, e, decode(e.path)));
  }

  // ---------------------------------------------------------------------------
  // get_content_paths
  // ---------------------------------------------------------------------------

  /** The directory `get_content_paths(slug)` searches: the content directory, joined with `slug` when non-empty. */
  function ContentDirectory(contentDirectory: string, slug: string): string {
    if slug != [] then JoinPath(contentDirectory, slug) else contentDirectory
  }

  /** The generator's `if path.is_file(): yield path`. */
  function FileStep(e: Entry): Option<string> {
    if e.isFile then Some(e.path) else None
  }

  /** What `get_content_paths(slug)` yields, or the error it raises. */
  function ContentPathsOf(fs: FileSystem, contentDirectory: string, slug: string): Result<seq<string>, FsError> {
    var directory := ContentDirectory(contentDirectory, slug);
    if !fs.pathExists(directory) then Failure(FileNotFound(directory))
    else Success(FilterMap(Glob(fs, directory, ".md"), FileStep))
  }

  /** `get_content_paths`: the regular "*.md" files below the directory, in glob order. */
  method ContentPaths(fs: FileSystem, contentDirectory: string, slug: string) returns (r: Result<seq<string>, FsError>)
    ensures r.Failure? <==> !fs.pathExists(ContentDirectory(contentDirectory, slug))
    ensures r == ContentPathsOf(fs, contentDirectory, slug)
  {
    var directory := contentDirectory;
    if slug != [] {
      directory := JoinPath(contentDirectory, slug);
    }
    if !fs.pathExists(directory) {
      return Failure(FileNotFound(directory));
    }
    var paths := RegularFiles(Glob(fs, directory, ".md"));
    return Success(paths);
  }

  /** The generator loop of `get_content_paths`: `if path.is_file(): yield path`. */
  method RegularFiles(matches: seq<Entry>) returns (paths: seq<string>)
    ensures paths == FilterMap(matches, FileStep)
  {
    paths := [];
    var i := 0;
    while i < |matches|
      invariant 0 <= i <= |matches|
      invariant paths == FilterMap(matches[..i], FileStep)
    {
      if matches[i].isFile {
        paths := paths + [matches[i].path];
      }
      assert matches[..i + 1][..i] == matches[..i];
      i := i + 1;
    }
    assert matches[..i] == matches;
  }

  /** A path is yielded exactly when the walk visits it as a regular file whose name ends with ".md". */
  lemma ContentPathsMembership(fs: FileSystem, contentDirectory: string, slug: string, p: string)
    requires ContentPathsOf(fs, contentDirectory, slug).Success?
    ensures p in ContentPathsOf(fs, contentDirectory, slug).value <==>
      Entry(p, true) in fs.walk(ContentDirectory(contentDirectory, slug)) && EndsWith(Name(p), ".md")
  {
    var directory := ContentDirectory(contentDirectory, slug);
    var matches := Glob(fs, directory, ".md");
    FilterMapMembership(matches, FileStep, p);
    GlobMembership(fs, directory, ".md", Entry(p, true));
    if p in ContentPathsOf(fs, contentDirectory, slug).value {
      var i :| 0 <= i < |matches| && FileStep(matches[i]) == Some(p);
      assert matches[i] == Entry(p, true);
    }
    if Entry(p, true) in matches {
      var i :| 0 <= i < |matches| && matches[i] == Entry(p, true);
      assert FileStep(matches[i]) == Some(p);
    }
  }

  /** `get_content_paths("dir/")` searches the same directory as `get_content_paths("dir")`. */
  lemma ContentDirectoryTrailingSlash(contentDirectory: string, slug: string)
    requires slug != []
    ensures ContentDirectory(contentDirectory, slug + "/") == ContentDirectory(contentDirectory, slug)
  {
    JoinPathTrailingSlash(contentDirectory, slug);
  }

  // ---------------------------------------------------------------------------
  // get_content_items
  // ---------------------------------------------------------------------------

  /** `ContentItem`. */
  datatype ContentItem = ContentItem(path: string, metadata: Metadata, relativeUrl: string, html: string)

  /** `skip_draft and metadata and "draft" in metadata and metadata["draft"] is True`. */
  predicate SkippedAsDraft(skipDraft: bool, metadata: Metadata) {
    skipDraft && metadata != map[] && "draft" in metadata && metadata["draft"] == Bool(true)
  }

  /** `path_str[len(str(content_directory)):-3]`, then a trailing "/index" dropped. */
  function RelativeUrl(contentDirectory: string, path: string): string {
    var url := SliceToEnd(path, |contentDirectory|, MarkdownExtensionLength);
    if EndsWith(url, "/index") then url[..|url| - 6] else url
  }

  /** The relative URL of `<content>/<rel>.md` is `rel`, less a final "/index". */
  lemma RelativeUrlOfContentFile(contentDirectory: string, rel: string)
    ensures RelativeUrl(contentDirectory, contentDirectory + rel + ".md")
         == if EndsWith(rel, "/index") then rel[..|rel| - 6] else rel
  {
    var path := contentDirectory + rel + ".md";
    assert path[|contentDirectory|..|path| - 3] == rel;
  }

  /** "<content>/dir/index.md" is served at "/dir". */
  lemma RelativeUrlOfDirectoryIndex(contentDirectory: string)
    ensures RelativeUrl(contentDirectory, contentDirectory + "/dir/index.md") == "/dir"
  {
    RelativeUrlOfContentFile(contentDirectory, "/dir/index");
    assert contentDirectory + "/dir/index" + ".md" == contentDirectory + "/dir/index.md";
  }

  /** "<content>/index.md" is served at "". */
  lemma RelativeUrlOfRootIndex(contentDirectory: string)
    ensures RelativeUrl(contentDirectory, contentDirectory + "/index.md") == ""
  {
    RelativeUrlOfContentFile(contentDirectory, "/index");
    assert contentDirectory + "/index" + ".md" == contentDirectory + "/index.md";
  }

  /** "<content>/about.md" is served at "/about". */
  lemma RelativeUrlOfPage(contentDirectory: string)
    ensures RelativeUrl(contentDirectory, contentDirectory + "/about.md") == "/about"
  {
    RelativeUrlOfContentFile(contentDirectory, "/about");
    assert contentDirectory + "/about" + ".md" == contentDirectory + "/about.md";
    assert !EndsWith("/about", "/index");
  }

  /** The item built for a rendered path. */
  function ItemFor(contentDirectory: string, render: string -> (string, Metadata), path: string): ContentItem {
    ContentItem(path, render(path).1, RelativeUrl(contentDirectory, path), render(path).0)
  }

  /** One iteration of the loop in `get_content_items`. */
  function ItemStep(contentDirectory: string, skipDraft: bool, render: string -> (string, Metadata), path: string)
    : Option<ContentItem>
  {
    if SkippedAsDraft(skipDraft, render(path).1) then None else Some(ItemFor(contentDirectory, render, path))
  }

  /** The items `get_content_items` returns for the given content paths. */
  function ContentItemsOf(contentDirectory: string, skipDraft: bool, render: string -> (string, Metadata), paths: seq<string>)
    : seq<ContentItem>
  {
    FilterMap(paths, p => ItemStep(contentDirectory, skipDraft, render, p))
  }

  /** `get_content_items`: one item per content path, drafts skipped on request, in path order. */
  method ContentItems(fs: FileSystem, contentDirectory: string, skipDraft: bool, render: string -> (string, Metadata))
    returns (r: Result<seq<ContentItem>, FsError>)
    ensures r.Failure? <==> !fs.pathExists(contentDirectory)
    ensures match ContentPathsOf(fs, contentDirectory, "")
      case Failure(err) => r == Failure(err)
      case Success(paths) => r == Success(ContentItemsOf(contentDirectory, skipDraft, render, paths))
  {
    var found := ContentPaths(fs, contentDirectory, "");
    if found.Failure? {
      return Failure(found.error);
    }
    var items := RenderItems(contentDirectory, skipDraft, render, found.value);
    return Success(items);
  }

  /** The loop of `get_content_items` over the content paths. */
  method RenderItems(contentDirectory: string, skipDraft: bool, render: string -> (string, Metadata), paths: seq<string>)
    returns (items: seq<ContentItem>)
    ensures items == ContentItemsOf(contentDirectory, skipDraft, render, paths)
  {
    items := [];
    var i := 0;
    while i < |paths|
      invariant 0 <= i <= |paths|
      invariant items == ContentItemsOf(contentDirectory, skipDraft, render, paths[..i])
    {
      var item := RenderItem(contentDirectory, skipDraft, render, paths[i]);
      ContentItemsStep(contentDirectory, skipDraft, render, paths, i);
      if item.Some? {
        items := items + [item.value];
      }
      i := i + 1;
    }
    assert paths[..i] == paths;
  }

  /** The body of that loop for one path: render it, skip it if it is a draft to skip, else build its item. */
  method RenderItem(contentDirectory: string, skipDraft: bool, render: string -> (string, Metadata), path: string)
    returns (item: Option<ContentItem>)
    ensures item == ItemStep(contentDirectory, skipDraft, render, path)
  {
    var (html, metadata) := render(path);
    if skipDraft && metadata != map[] && "draft" in metadata && metadata["draft"] == Bool(true) {
      return None;
    }
    return Some(ContentItem(path, metadata, RelativeUrl(contentDirectory, path), html));
  }

  /** One more path adds its item, unless it is a skipped draft. */
  lemma ContentItemsStep(contentDirectory: string, skipDraft: bool, render: string -> (string, Metadata),
                         paths: seq<string>, i: nat)
    requires i < |paths|
    ensures ContentItemsOf(contentDirectory, skipDraft, render, paths[..i + 1])
         == ContentItemsOf(contentDirectory, skipDraft, render, paths[..i]) + Kept(ItemStep(contentDirectory, skipDraft, render, paths[i]))
  {
    FilterMapStep(paths, i, p => ItemStep(contentDirectory, skipDraft, render, p));
  }

  /**
   * An item is returned exactly when its path is among the content paths and its
   * metadata does not mark it a draft that should be skipped.
   */
  lemma ContentItemsMembership(contentDirectory: string, skipDraft: bool, render: string -> (string, Metadata),
                               paths: seq<string>, item: ContentItem)
    ensures item in ContentItemsOf(contentDirectory, skipDraft, render, paths) <==>
      item.path in paths && item == ItemFor(contentDirectory, render, item.path)
      && !(skipDraft && "draft" in item.metadata && item.metadata["draft"] == Bool(true))
  {
    var step := p => ItemStep(contentDirectory, skipDraft, render, p);
    FilterMapMembership(paths, step, item);
    if item.path in paths && item == ItemFor(contentDirectory, render, item.path)
      && !(skipDraft && "draft" in item.metadata && item.metadata["draft"] == Bool(true)) {
      var i :| 0 <= i < |paths| && paths[i] == item.path;
      assert step(paths[i]) == Some(item);
    }
  }

  /** Without `skip_draft` nothing is skipped: one item per path, in path order. */
  lemma ContentItemsKeepAll(contentDirectory: string, render: string -> (string, Metadata), paths: seq<string>)
    ensures |ContentItemsOf(contentDirectory, false, render, paths)| == |paths|
    ensures forall i :: 0 <= i < |paths| ==>
      ContentItemsOf(contentDirectory, false, render, paths)[i] == ItemFor(contentDirectory, render, paths[i])
  {
    FilterMapKeepsAll(paths, p => ItemStep(contentDirectory, false, render, p));
  }

  /** Items keep the order of the paths: the items of two runs of paths are the two runs of items. */
  lemma ContentItemsInPathOrder(contentDirectory: string, skipDraft: bool, render: string -> (string, Metadata),
                                a: seq<string>, b: seq<string>)
    ensures ContentItemsOf(contentDirectory, skipDraft, render, a + b)
         == ContentItemsOf(contentDirectory, skipDraft, render, a) + ContentItemsOf(contentDirectory, skipDraft, render, b)
  {
    FilterMapConcat(a, b, p => ItemStep(contentDirectory, skipDraft, render, p));
  }
}
