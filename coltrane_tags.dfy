/**
 * The template tags of `coltrane/templatetags/coltrane_tags.py`: the exclude-list
 * test, the `parent` filter, the listing loop of `directory_contents` and the
 * context merge of `include_md`.
 */
module ColtraneTags {
  import opened Wrappers
  import opened PyStr
  import opened Sequences
  import opened Values
  import opened Paths
  import opened Retriever

  // ---------------------------------------------------------------------------
  // _is_content_slug_in_string
  // ---------------------------------------------------------------------------

  /** One comma-separated piece of an exclude list, stripped and without one leading "/". */
  function ExcludeEntry(entry: string): string {
    var s := Strip(entry);
    if StartsWith(s, "/") then s[1..] else s
  }

  /** Some comma-separated piece of `slugs` names `contentSlug`. */
  predicate Listed(contentSlug: string, slugs: string) {
    var pieces := Split(slugs, ',');
    exists i :: 0 <= i < |pieces| && ExcludeEntry(pieces[i]) == contentSlug
  }

  /** The verdict of `_is_content_slug_in_string`: a missing or empty list excludes nothing. */
  predicate Excluded(contentSlug: string, slugs: Option<string>) {
    slugs.Some? && slugs.value != [] && Listed(contentSlug, slugs.value)
  }

  /** `_is_content_slug_in_string`: scans the pieces in order and stops at the first match. */
  method IsContentSlugInString(contentSlug: string, slugs: Option<string>) returns (found: bool)
    ensures found <==> Excluded(contentSlug, slugs)
    ensures slugs.None? || slugs == Some([]) ==> !found
  {
    if slugs.None? || slugs.value == [] {
      return false;
    }
    found := AnyPieceNames(contentSlug, Split(slugs.value, ','));
  }

  /** The loop of `_is_content_slug_in_string` over the comma-separated pieces. */
  method AnyPieceNames(contentSlug: string, pieces: seq<string>) returns (found: bool)
    ensures found <==> exists i :: 0 <= i < |pieces| && ExcludeEntry(pieces[i]) == contentSlug
  {
    var i := 0;
    while i < |pieces|
      invariant 0 <= i <= |pieces|
      invariant forall j :: 0 <= j < i ==> ExcludeEntry(pieces[j]) != contentSlug
    {
      var slug := ExcludeEntry(pieces[i]);
      if slug == contentSlug {
        return true;
      }
      forall j | 0 <= j < i + 1
        ensures ExcludeEntry(pieces[j]) != contentSlug
      {
        if j == i {
          assert ExcludeEntry(pieces[j]) == slug;
        }
      }
      i := i + 1;
    }
    return false;
  }

  /** A list written as `",".join(entries)` names exactly the slugs its entries name. */
  lemma ListedEntries(contentSlug: string, entries: seq<string>)
    requires |entries| >= 1
    requires forall i :: 0 <= i < |entries| ==> ',' !in entries[i]
    ensures Listed(contentSlug, Join(entries, ',')) <==>
      exists i :: 0 <= i < |entries| && ExcludeEntry(entries[i]) == contentSlug
  {
    SplitJoin(entries, ',');
  }

  /** Whitespace around an entry does not change the slug it names. */
  lemma ExcludeEntryIgnoresPadding(w1: string, entry: string, w2: string)
    requires AllSpace(w1) && AllSpace(w2)
    ensures ExcludeEntry(w1 + entry + w2) == ExcludeEntry(entry)
  {
    StripIgnoresPadding(w1, entry, w2);
  }

  /** A stripped entry without a leading "/" names itself. */
  lemma ExcludeEntryPlain(s: string)
    requires IsStripped(s) && !StartsWith(s, "/")
    ensures ExcludeEntry(s) == s
  {
    StripStripped(s);
  }

  /** Exactly one leading "/" is ignored: "/s" names `s`, and "//s" names "/s". */
  lemma ExcludeEntrySlash(entry: string)
    requires entry != [] && entry[0] == '/' && IsStripped(entry)
    ensures ExcludeEntry(entry) == entry[1..]
  {
    StripStripped(entry);
  }

  /** The list "/a" names the slug "a". */
  lemma ExcludeSlashExample()
    ensures Excluded("a", Some("/a"))
  {
    ExcludeEntrySlash("/a");
    assert "/a"[1..] == "a";
    assert Join(["/a"], ',') == "/a";
    ListedEntries("a", ["/a"]);
  }

  /** The list " a " names the slug "a". */
  lemma ExcludePaddingExample(slugs: string)
    requires slugs == " a "
    ensures Excluded("a", Some(slugs))
  {
    var a, space := "a", " ";
    assert AllSpace(space) && IsStripped(a);
    StripPadded(space, a, space);
    assert space + a + space == slugs;
    assert ExcludeEntry(slugs) == a;
    SplitNoSeparator(slugs, ',');
  }

  /** Only one leading "/" is dropped, so "//a" does not name `a`. */
  lemma ExcludeDoubleSlashExample()
    ensures !Excluded("a", Some("//a"))
  {
    ExcludeEntrySlash("//a");
    assert "//a"[1..] == "/a";
    assert Join(["//a"], ',') == "//a";
    ListedEntries("a", ["//a"]);
  }

  // ---------------------------------------------------------------------------
  // parent
  // ---------------------------------------------------------------------------

  /** The two ways `parent` fails: `NoParentError`, and the `ValueError` of `rindex`. */
  datatype ParentError = NoParent | SubstringNotFound

  /** The path `parent` works on: stripped, without one trailing "/". */
  function Trimmed(path: string): string {
    var s := Strip(path);
    if EndsWith(s, "/") then s[..|s| - 1] else s
  }

  /** `parent(path)` for a string `path`: everything before the last "/" of the trimmed path. */
  function Parent(path: string): (r: Result<string, ParentError>)
    ensures r == Failure(NoParent) <==> Trimmed(path) == []
    ensures r == Failure(SubstringNotFound) <==> Trimmed(path) != [] && '/' !in Trimmed(path)
    ensures r.Success? ==>
      var t := Trimmed(path);
      |r.value| < |t| && t[..|r.value|] == r.value && t[|r.value|] == '/' && '/' !in t[|r.value| + 1..]
  {
    var t := Trimmed(path);
    if t == [] then Failure(NoParent)
    else match LastIndexOf(t, '/')
      case None => Failure(SubstringNotFound)
      case Some(i) => Success(t[..i])
  }

  /** Each step up removes exactly one "/" from the trimmed path. */
  lemma ParentDropsOneSeparator(path: string)
    requires Parent(path).Success?
    ensures multiset(Trimmed(path))['/'] == multiset(Parent(path).value)['/'] + 1
  {
    SeparatorCount(Trimmed(path), Parent(path).value);
  }

  /** Cutting at the last "/" leaves one "/" fewer. */
  lemma SeparatorCount(t: string, p: string)
    requires |p| < |t| && t[..|p|] == p && t[|p|] == '/' && '/' !in t[|p| + 1..]
    ensures multiset(t)['/'] == multiset(p)['/'] + 1
  {
    var tail := t[|p| + 1..];
    assert t == p + ['/'] + tail;
    assert multiset(t) == multiset(p) + multiset(['/']) + multiset(tail);
    assert multiset(tail)['/'] == 0;
  }

  /** A path that starts and ends with neither whitespace nor "/" needs no trimming. */
  lemma TrimmedClean(s: string)
    requires s != [] && !IsSpace(s[0]) && !IsSpace(s[|s| - 1]) && s[|s| - 1] != '/'
    ensures Trimmed(s) == s
  {
    StripStripped(s);
  }

  /** The parent of "p/name" is "p", for a final segment with no "/" and no whitespace at its end. */
  lemma ParentOfChild(p: string, name: string)
    requires p == [] || !IsSpace(p[0])
    requires name != [] && '/' !in name && !IsSpace(name[|name| - 1])
    ensures Parent(p + "/" + name) == Success(p)
  {
    var s := p + "/" + name;
    assert s[0] == (if p == [] then '/' else p[0]);
    assert s[|s| - 1] == name[|name| - 1];
    assert name[|name| - 1] in name;
    TrimmedClean(s);
    assert s == p + ['/'] + name;
    LastIndexOfSeparator(p, '/', name);
    assert s[..|p|] == p;
  }

  /** `parent` of a request path with a trailing "/": "/a/b/" gives "/a". */
  lemma ParentOfTrailingSlash()
    ensures Parent("/a/b/") == Success("/a")
  {
    var s := "/a/b/";
    StripStripped(s);
    assert s[..|s| - 1] == "/a" + "/" + "b";
    ParentOfChild("/a", "b");
  }

  /** `parent` of a top-level page is the empty string. */
  lemma ParentOfTopLevel()
    ensures Parent("/a") == Success("")
  {
    assert [] + "/" + "a" == "/a";
    ParentOfChild([], "a");
  }

  /** The root and a blank path have no parent. */
  lemma ParentOfRoot()
    ensures Parent("/") == Failure(NoParent)
    ensures Parent("  ") == Failure(NoParent)
  {
    StripStripped("/");
    assert AllSpace("  ") && AllSpace([]);
    StripPadded("  ", [], []);
    assert "  " + [] + [] == "  ";
  }

  /** A path without any "/" makes `rindex` fail. */
  lemma ParentWithoutSeparator()
    ensures Parent("abc") == Failure(SubstringNotFound)
  {
    TrimmedClean("abc");
  }

  // ---------------------------------------------------------------------------
  // directory_contents
  // ---------------------------------------------------------------------------

  /** The directory `directory_contents` lists: the argument, or the request path when it is missing or empty, without one leading "/". */
  function ListingDirectory(requestPath: string, directory: Option<string>): string {
    var d := if directory.None? || directory.value == [] then requestPath else directory.value;
    if StartsWith(d, "/") then d[1..] else d
  }

  /** The slug of a listed file: its name without the last three characters, under the listed directory. */
  function SlugOf(directory: string, path: string): string {
    var stem := DropLast(Name(path), MarkdownExtensionLength);
    if directory != [] then directory + "/" + stem else stem
  }

  /** The slug a content path contributes to the listing, if any. */
  function ListingSlugStep(directory: string, exclude: Option<string>, path: string): Option<string> {
    if Name(path) == "index.md" then None
    else
      var slug := SlugOf(directory, path);
      if Excluded(slug, exclude) then None else Some(slug)
  }

  /** The slugs `directory_contents` looks up, in the order of the content paths. */
  function ListedSlugs(directory: string, exclude: Option<string>, paths: seq<string>): seq<string> {
    FilterMap(paths, (p: string) => ListingSlugStep(directory, exclude, p))
  }

  /** The metadata a content path contributes to the listing, if any. */
  function ListingStep(directory: string, exclude: Option<string>, metadataOf: string -> Metadata, path: string): Option<Metadata> {
    match ListingSlugStep(directory, exclude, path)
    case None => None
    case Some(slug) => Some(metadataOf(slug))
  }

  /** The list the loop of `directory_contents` builds from the content paths. */
  function ListingOf(directory: string, exclude: Option<string>, metadataOf: string -> Metadata, paths: seq<string>): seq<Metadata> {
    FilterMap(paths, (p: string) => ListingStep(directory, exclude, metadataOf, p))
  }

  /** What `directory_contents` returns, or the error `get_content_paths` raises. */
  function DirectoryContentsOf(fs: FileSystem, contentDirectory: string, requestPath: string,
                               directory: Option<string>, exclude: Option<string>,
                               metadataOf: string -> Metadata): Result<seq<Metadata>, FsError> {
    var d := ListingDirectory(requestPath, directory);
    match ContentPathsOf(fs, contentDirectory, d)
    case Failure(e) => Failure(e)
    case Success(paths) => Success(ListingOf(d, exclude, metadataOf, paths))
  }

  /**
   * `directory_contents`: the metadata of every Markdown file found for the
   * directory, except "index.md" files and excluded slugs. `metadataOf` stands for
   * the metadata half of `get_html_and_markdown`.
   */
  method DirectoryContents(fs: FileSystem, contentDirectory: string, requestPath: string,
                           directory: Option<string>, exclude: Option<string>,
                           metadataOf: string -> Metadata) returns (r: Result<seq<Metadata>, FsError>)
    ensures r.Failure? <==> !fs.pathExists(ContentDirectory(contentDirectory, ListingDirectory(requestPath, directory)))
    ensures r == DirectoryContentsOf(fs, contentDirectory, requestPath, directory, exclude, metadataOf)
  {
    var d := if directory.None? || directory.value == [] then requestPath else directory.value;
    if d != [] && StartsWith(d, "/") {
      d := d[1..];
    }
    var paths := ContentPaths(fs, contentDirectory, d);
    if paths.Failure? {
      return Failure(paths.error);
    }
    var contents := ListMetadata(d, exclude, metadataOf, paths.value);
    return Success(contents);
  }

  /** The loop of `directory_contents` over the content paths. */
  method ListMetadata(directory: string, exclude: Option<string>, metadataOf: string -> Metadata, paths: seq<string>)
    returns (contents: seq<Metadata>)
    ensures contents == ListingOf(directory, exclude, metadataOf, paths)
  {
    contents := [];
    var i := 0;
    while i < |paths|
      invariant 0 <= i <= |paths|
      invariant contents == ListingOf(directory, exclude, metadataOf, paths[..i])
    {
      var entry := ListEntry(directory, exclude, metadataOf, paths[i]);
      ListingOfStep(directory, exclude, metadataOf, paths, i);
      if entry.Some? {
        contents := contents + [entry.value];
      }
      i := i + 1;
    }
    assert paths[..i] == paths;
  }

  /** The body of that loop for one path: skip "index.md", build the slug, skip it if excluded, else look it up. */
  method ListEntry(directory: string, exclude: Option<string>, metadataOf: string -> Metadata, path: string)
    returns (entry: Option<Metadata>)
    ensures entry == ListingStep(directory, exclude, metadataOf, path)
  {
    var name := Name(path);
    if name == "index.md" {
      return None;
    }
    var slug := SlugOf(directory, path);
    var excluded := IsContentSlugInString(slug, exclude);
    if excluded {
      return None;
    }
    return Some(metadataOf(slug));
  }

  /** One more path adds its entry, if it yields one. */
  lemma ListingOfStep(directory: string, exclude: Option<string>, metadataOf: string -> Metadata, paths: seq<string>, i: nat)
    requires i < |paths|
    ensures ListingOf(directory, exclude, metadataOf, paths[..i + 1])
         == ListingOf(directory, exclude, metadataOf, paths[..i]) + Kept(ListingStep(directory, exclude, metadataOf, paths[i]))
  {
    FilterMapStep(paths, i, (p: string) => ListingStep(directory, exclude, metadataOf, p));
  }

  /** The listing is the metadata of the listed slugs, one entry per slug, in order. */
  lemma {:induction false} ListingIsMetadataOfSlugs(directory: string, exclude: Option<string>,
                                                    metadataOf: string -> Metadata, paths: seq<string>)
    ensures |ListingOf(directory, exclude, metadataOf, paths)| == |ListedSlugs(directory, exclude, paths)|
    ensures forall i :: 0 <= i < |ListedSlugs(directory, exclude, paths)| ==>
      ListingOf(directory, exclude, metadataOf, paths)[i] == metadataOf(ListedSlugs(directory, exclude, paths)[i])
    decreases |paths|
  {
    if |paths| > 0 {
      var n := |paths| - 1;
      ListingIsMetadataOfSlugs(directory, exclude, metadataOf, paths[..n]);
      ListingOfStep(directory, exclude, metadataOf, paths, n);
      ListedSlugsStep(directory, exclude, paths, n);
      assert paths[..n + 1] == paths;
      var step := ListingSlugStep(directory, exclude, paths[n]);
      assert Kept(ListingStep(directory, exclude, metadataOf, paths[n]))
          == if step.Some? then [metadataOf(step.value)] else [];
    }
  }

  /** One more path adds its slug, if it yields one. */
  lemma ListedSlugsStep(directory: string, exclude: Option<string>, paths: seq<string>, i: nat)
    requires i < |paths|
    ensures ListedSlugs(directory, exclude, paths[..i + 1])
         == ListedSlugs(directory, exclude, paths[..i]) + Kept(ListingSlugStep(directory, exclude, paths[i]))
  {
    FilterMapStep(paths, i, (p: string) => ListingSlugStep(directory, exclude, p));
  }

  /** A slug is listed exactly when some content path other than an "index.md" yields it and it is not excluded. */
  lemma ListedSlugMembership(directory: string, exclude: Option<string>, paths: seq<string>, slug: string)
    ensures slug in ListedSlugs(directory, exclude, paths) <==>
      (exists i :: 0 <= i < |paths| && Name(paths[i]) != "index.md" && SlugOf(directory, paths[i]) == slug)
      && !Excluded(slug, exclude)
  {
    var f := (p: string) => ListingSlugStep(directory, exclude, p);
    FilterMapMembership(paths, f, slug);
    if slug in ListedSlugs(directory, exclude, paths) {
      var i :| 0 <= i < |paths| && f(paths[i]) == Some(slug);
      ListingSlugStepSome(directory, exclude, paths[i], slug);
    }
    if (exists i :: 0 <= i < |paths| && Name(paths[i]) != "index.md" && SlugOf(directory, paths[i]) == slug)
       && !Excluded(slug, exclude) {
      var i :| 0 <= i < |paths| && Name(paths[i]) != "index.md" && SlugOf(directory, paths[i]) == slug;
      ListingSlugStepSome(directory, exclude, paths[i], slug);
    }
  }

  /** A content path yields `slug` exactly when it is not an "index.md", has that slug, and the slug is not excluded. */
  lemma ListingSlugStepSome(directory: string, exclude: Option<string>, path: string, slug: string)
    ensures ListingSlugStep(directory, exclude, path) == Some(slug) <==>
      Name(path) != "index.md" && SlugOf(directory, path) == slug && !Excluded(slug, exclude)
  {
  }

  /** The slug of a file named `stem + ".md"` is `stem`, under the listed directory, however deep the file lies. */
  lemma SlugIgnoresSubdirectories(directory: string, parent: string, stem: string)
    requires '/' !in stem
    ensures SlugOf(directory, parent + "/" + stem + ".md") == if directory != [] then directory + "/" + stem else stem
  {
    var name := stem + ".md";
    assert '/' !in name by {
      assert forall k :: 0 <= k < |name| ==> name[k] == if k < |stem| then stem[k] else ".md"[k - |stem|];
    }
    assert parent + "/" + stem + ".md" == parent + ['/'] + name;
    LastIndexOfSeparator(parent, '/', name);
    assert (parent + ['/'] + name)[|parent| + 1..] == name;
    assert name[..|name| - 3] == stem;
  }

  // ---------------------------------------------------------------------------
  // IncludeMarkdownNode.render: the context merge
  // ---------------------------------------------------------------------------

  /** The value of `key` in the first context layer that defines it, in iteration order. */
  function FirstDefining(layers: seq<Metadata>, key: string): Option<Value>
    decreases |layers|
  {
    if |layers| == 0 then None
    else if key in layers[0] then Some(layers[0][key])
    else FirstDefining(layers[1..], key)
  }

  /**
   * The metadata after the merge loop has seen `layers` in turn: each layer only
   * adds the keys still missing (Dafny's `m1 + m2` keeps the value of `m2` on a clash).
   */
  function MergeLayers(metadata: Metadata, layers: seq<Metadata>): Metadata
    decreases |layers|
  {
    if |layers| == 0 then metadata else MergeLayers(layers[0] + metadata, layers[1..])
  }

  /**
   * The merged metadata holds the keys of the metadata and of every layer; the
   * Markdown file's own values win, and every other key takes its value from the
   * first layer that defines it.
   */
  lemma {:induction false} MergeLayersMeaning(metadata: Metadata, layers: seq<Metadata>)
    ensures forall k :: k in MergeLayers(metadata, layers) <==> k in metadata || FirstDefining(layers, k).Some?
    ensures forall k :: k in metadata ==> MergeLayers(metadata, layers)[k] == metadata[k]
    ensures forall k :: k !in metadata && FirstDefining(layers, k).Some? ==>
      MergeLayers(metadata, layers)[k] == FirstDefining(layers, k).value
    decreases |layers|
  {
    if |layers| > 0 {
      MergeLayersMeaning(layers[0] + metadata, layers[1..]);
    }
  }

  /** Merging in two runs of layers is merging in their concatenation. */
  lemma {:induction false} MergeLayersConcat(metadata: Metadata, first: seq<Metadata>, second: seq<Metadata>)
    ensures MergeLayers(metadata, first + second) == MergeLayers(MergeLayers(metadata, first), second)
    decreases |first|
  {
    if |first| == 0 {
      assert first + second == second;
    } else {
      assert (first + second)[1..] == first[1..] + second;
      MergeLayersConcat(first[0] + metadata, first[1..], second);
    }
  }

  /** Merging the same context a second time changes nothing. */
  lemma MergeLayersIdempotent(metadata: Metadata, layers: seq<Metadata>)
    ensures MergeLayers(MergeLayers(metadata, layers), layers) == MergeLayers(metadata, layers)
  {
    var once := MergeLayers(metadata, layers);
    MergeLayersMeaning(metadata, layers);
    MergeLayersMeaning(once, layers);
  }

  /** `for key, value in c.items(): if key not in metadata: metadata[key] = value`, for one layer `c`. */
  method MergeLayer(metadata: Metadata, layer: Metadata) returns (merged: Metadata)
    ensures merged == layer + metadata
  {
    merged := metadata;
    var keys := layer.Keys;
    while keys != {}
      invariant keys <= layer.Keys
      invariant merged == (layer - keys) + metadata
      decreases |keys|
    {
      var key :| key in keys;
      if key !in merged {
        merged := merged[key := layer[key]];
      }
      keys := keys - {key};
    }
  }

  /** The merge loop of `IncludeMarkdownNode.render` over the context layers, in iteration order. */
  method MergeContext(metadata: Metadata, layers: seq<Metadata>) returns (merged: Metadata)
    ensures merged == MergeLayers(metadata, layers)
  {
    merged := metadata;
    var i := 0;
    while i < |layers|
      invariant 0 <= i <= |layers|
      invariant MergeLayers(merged, layers[i..]) == MergeLayers(metadata, layers)
    {
      assert layers[i..][1..] == layers[i + 1..];
      merged := MergeLayer(merged, layers[i]);
      i := i + 1;
    }
  }
}
