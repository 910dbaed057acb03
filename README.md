# coltrane: content paths, data keys and template-tag helpers in Dafny

This project models the path and slug logic of coltrane, a Django app that serves
Markdown files as pages:

- `coltrane/retriever.py`:
  - `_add_data_from_path` turns a JSON data file's location below the data directory into nested dictionary keys.
  - `get_data` visits every `*.json5`, then every `*.json` file.
  - `get_content_paths` chooses the content directory, raises `FileNotFoundError` when it is missing, and yields the regular `*.md` files below it.
  - `get_content_items` derives each page's relative URL and skips drafts.
- `coltrane/templatetags/coltrane_tags.py`:
  - `_is_content_slug_in_string` tests a slug against a comma-separated exclude list.
  - `parent` is the filter that goes one directory up and raises `NoParentError` at the root.
  - The listing loop of `directory_contents`.
  - The loop of `IncludeMarkdownNode.render` that fills the Markdown metadata from the template context.

Modules:

- `Wrappers`: `Option` and `Result`.
- `PyStr`: the Python `str` operations the code relies on, on `seq<char>`:
  - `strip` with Python's whitespace set;
  - `split(",")`, which keeps empty pieces;
  - `replace(x, "")`, which removes every non-overlapping occurrence, scanning left to right;
  - `rindex`;
  - slices with a negative end.
- `Sequences`: `FilterMap`, the "append what passes" loop shared by every list-building loop here.
- `Values`: JSON-like values and Python truthiness.
- `Paths`: `PurePosixPath` names, normalisation and joining, and an abstract filesystem. `rglob` is the walk filtered by name suffix.
- `Retriever` and `ColtraneTags`: the two source files.

The filesystem, the JSON decoder and the Markdown renderer are parameters:

- `FileSystem.pathExists` answers `exists()`.
- `FileSystem.walk` gives the entries below a directory in the order the recursive glob visits them.
- `decode` maps a data file to its decoded value, or to `None` when decoding failed.
- `render` and `metadataOf` stand for `render_markdown_path` and `get_html_and_markdown`.

Each loop in the source is a `method` with a `while` loop. Its `ensures` ties the result to a specification function, and lemmas prove what the source promises about that function. `_add_data_from_path` walks the pieces in reverse. `IncludeMarkdownNode.render` runs nested loops over the layers and their keys.

The docstring of `directory_contents` speaks of "a particular directory" (coltrane/templatetags/coltrane_tags.py:57), but the code uses `rglob("*.md")`, which searches subdirectories too, and builds the slug from `path.name` alone. A file `<directory>/sub/page.md` is therefore listed under the slug `<directory>/page`. The model follows the code: see `ColtraneTags.SlugIgnoresSubdirectories`.

## Model

| member | source | states |
|---|---|---|
| `ColtraneTags.IsContentSlugInString` | coltrane/templatetags/coltrane_tags.py:26-49 | true iff the list is present, non-empty and some comma-separated piece, stripped and without one leading "/", equals the slug; a missing or empty list never matches |
| `ColtraneTags.AnyPieceNames` | coltrane/templatetags/coltrane_tags.py:40-49 | the loop returns true iff some piece, stripped and without one leading "/", equals the slug |
| `ColtraneTags.ListedEntries` | coltrane/templatetags/coltrane_tags.py:38-49 | a list written as `",".join(entries)` names exactly the slugs its entries name (split undoes the join) |
| `ColtraneTags.ExcludeEntryIgnoresPadding` | coltrane/templatetags/coltrane_tags.py:41 | whitespace around an entry never changes the slug it names |
| `ColtraneTags.ExcludeEntryPlain` | coltrane/templatetags/coltrane_tags.py:41-46 | a stripped entry without a leading "/" names itself |
| `ColtraneTags.ExcludeEntrySlash` | coltrane/templatetags/coltrane_tags.py:43-44 | exactly one leading "/" is dropped from a stripped entry |
| `ColtraneTags.ExcludeSlashExample` | coltrane/templatetags/coltrane_tags.py:41-46 | the list "/a" excludes slug "a" |
| `ColtraneTags.ExcludePaddingExample` | coltrane/templatetags/coltrane_tags.py:41-46 | the list " a " excludes slug "a" |
| `ColtraneTags.ExcludeDoubleSlashExample` | coltrane/templatetags/coltrane_tags.py:41-46 | the list "//a" does not exclude slug "a" |
| `ColtraneTags.Parent` | coltrane/templatetags/coltrane_tags.py:104-115 | `NoParent` iff the path is empty once stripped and one trailing "/" is dropped; the `rindex` failure iff that path is non-empty with no "/"; otherwise the result is the part of the trimmed path before its last "/", a strict prefix |
| `ColtraneTags.ParentDropsOneSeparator` | coltrane/templatetags/coltrane_tags.py:112-113 | the parent holds one "/" fewer than the trimmed path |
| `ColtraneTags.SeparatorCount` | coltrane/templatetags/coltrane_tags.py:112-113 | cutting a path at a "/" after which no "/" follows removes exactly one "/" |
| `ColtraneTags.TrimmedClean` | coltrane/templatetags/coltrane_tags.py:104-107 | a path starting and ending with neither whitespace nor "/" is not changed by the trimming |
| `ColtraneTags.ParentOfChild` | coltrane/templatetags/coltrane_tags.py:104-115 | `parent(p + "/" + name)` is `p` when `p` does not start with whitespace and the last segment has no "/" and no trailing whitespace |
| `ColtraneTags.ParentOfTrailingSlash` | coltrane/templatetags/coltrane_tags.py:104-115 | `parent("/a/b/")` is "/a" |
| `ColtraneTags.ParentOfTopLevel` | coltrane/templatetags/coltrane_tags.py:112-115 | `parent("/a")` is "" |
| `ColtraneTags.ParentOfRoot` | coltrane/templatetags/coltrane_tags.py:104-110 | `parent("/")` and `parent("  ")` raise `NoParentError` |
| `ColtraneTags.ParentWithoutSeparator` | coltrane/templatetags/coltrane_tags.py:112 | `parent("abc")` fails in `rindex` |
| `ColtraneTags.DirectoryContents` | coltrane/templatetags/coltrane_tags.py:61-91 | fails iff the listed directory (argument or request path, less one leading "/") does not exist, with that error; otherwise returns the metadata of the listed slugs in path order |
| `ColtraneTags.ListMetadata` | coltrane/templatetags/coltrane_tags.py:74-91 | the loop appends, in path order, the metadata of every non-index file whose slug is not excluded |
| `ColtraneTags.ListEntry` | coltrane/templatetags/coltrane_tags.py:75-89 | one pass of the loop: nothing for an "index.md" or an excluded slug, else the metadata of the slug "directory/stem" (or "stem" when the directory is empty) |
| `ColtraneTags.ListingIsMetadataOfSlugs` | coltrane/templatetags/coltrane_tags.py:84-89 | the listing has one entry per listed slug, and entry i is the metadata of slug i |
| `ColtraneTags.ListedSlugMembership` | coltrane/templatetags/coltrane_tags.py:74-89 | a slug is listed iff some path other than an "index.md" yields it and it is not excluded |
| `ColtraneTags.SlugIgnoresSubdirectories` | coltrane/templatetags/coltrane_tags.py:75-81 | the slug of `<parent>/<stem>.md` is `stem`, prefixed by "directory/" only when the directory is non-empty, however deep the file lies |
| `ColtraneTags.MergeContext` | coltrane/templatetags/coltrane_tags.py:145-148 | the merge loop over the context layers computes `MergeLayers` |
| `ColtraneTags.MergeLayer` | coltrane/templatetags/coltrane_tags.py:146-148 | one layer adds exactly its keys that the metadata lacks, whatever order its items come in |
| `ColtraneTags.MergeLayersMeaning` | coltrane/templatetags/coltrane_tags.py:145-148 | the merged keys are the metadata's and the layers'; metadata values are never overwritten; any other key takes its value from the first layer that defines it |
| `ColtraneTags.MergeLayersConcat` | coltrane/templatetags/coltrane_tags.py:145-148 | merging two runs of layers one after the other is merging their concatenation |
| `ColtraneTags.MergeLayersIdempotent` | coltrane/templatetags/coltrane_tags.py:145-148 | merging the same context twice gives the same metadata as merging it once |
| `Retriever.AddDataFromPath` | coltrane/retriever.py:19-52 | produces a dictionary iff the path is a regular file and the decoded value is truthy; it is the one-key chain along the directory keys that ends in `{file_name: value}` |
| `Retriever.NonEmptySegments` | coltrane/retriever.py:50-52 | only non-empty pieces become keys, and every non-empty piece does |
| `Retriever.NestIsTheChain` | coltrane/retriever.py:44-52 | a value is the nesting of the leaf along the keys iff it is the one-key chain along them |
| `Retriever.NestLookup` | coltrane/retriever.py:44-52 | following the keys through the nesting reaches `{file_name: value}` |
| `Retriever.DirectoryPartOfDataFile` | coltrane/retriever.py:21 | the two replacements leave exactly the directories between the data directory and the file name, when neither name recurs |
| `Retriever.DirectoryKeysOfDataFile` | coltrane/retriever.py:21-52 | a file `<data>/d1/.../dn/<name>` is nested under `[d1, ..., dn]`, outermost first |
| `Retriever.TopLevelDataFile` | coltrane/retriever.py:21-52 | a file directly in the data directory yields `{file_name: value}` unwrapped |
| `Retriever.ExampleKeys` | coltrane/retriever.py:46-50 | `<data>/some/new/test/here.json` has keys some, new, test and name here.json |
| `Retriever.NestThree` | coltrane/retriever.py:44-52 | three directory keys nest the leaf three levels deep, outermost key first |
| `Retriever.ExampleFileKey` | coltrane/retriever.py:24 | the key of "here.json" is "here" |
| `Retriever.NestingExample` | coltrane/retriever.py:46-52 | that file holding v contributes `{"some": {"new": {"test": {"here": v}}}}` |
| `Retriever.FileKeyStripsExtension` | coltrane/retriever.py:24 | the key of `stem.json` and of `stem.json5` is `stem` when the stem holds no ".json" |
| `Retriever.FileKeyRemovesInside` | coltrane/retriever.py:23-24 | ".json" is removed anywhere in the name, not only at the end: `a + ".json" + b + ".json"` gives `a + b` (so "a.jsonl.json" gives "al") |
| `Retriever.ExtensionsExclusive` | coltrane/retriever.py:79-83 | no name ends with both ".json5" and ".json" |
| `Retriever.GetDataUpdates` | coltrane/retriever.py:77-83 | returns the dictionaries `get_data` hands to `dict_merge`, in order |
| `Retriever.AddDataFromPaths` | coltrane/retriever.py:79-83 | a loop over data files collects, in order, the dictionary of every file that yields one |
| `Retriever.DataGlobsDisjoint` | coltrane/retriever.py:79-83 | the two globs never visit the same file |
| `Retriever.DataUpdatesMembership` | coltrane/retriever.py:79-83 | a loop over data files collects a dictionary iff some file of the loop yields it |
| `Retriever.DataUpdatesJson5First` | coltrane/retriever.py:79-83 | every ".json5" file's dictionary comes before every ".json" file's |
| `Retriever.ContentPaths` | coltrane/retriever.py:91-108 | fails iff the chosen directory (joined with the slug only when the slug is non-empty) does not exist; otherwise yields the regular "*.md" files below it, in glob order |
| `Retriever.RegularFiles` | coltrane/retriever.py:104-108 | the generator yields the paths of the regular files among the matches, in order |
| `Retriever.ContentPathsMembership` | coltrane/retriever.py:104-108 | a path is yielded iff the walk visits it as a regular file whose name ends with ".md" |
| `Retriever.ContentDirectoryTrailingSlash` | coltrane/retriever.py:96-99 | a slug with a trailing "/" selects the same directory |
| `Retriever.ContentItems` | coltrane/retriever.py:119-143 | fails iff the content directory does not exist; otherwise one item per content path, in path order, drafts skipped when asked |
| `Retriever.RelativeUrlOfContentFile` | coltrane/retriever.py:126-138 | the URL of `<content><rel>.md` is `rel`, less a final "/index" |
| `Retriever.RelativeUrlOfDirectoryIndex` | coltrane/retriever.py:134-138 | `<content>/dir/index.md` has the URL "/dir" |
| `Retriever.RelativeUrlOfRootIndex` | coltrane/retriever.py:134-138 | `<content>/index.md` has the empty URL |
| `Retriever.RelativeUrlOfPage` | coltrane/retriever.py:134-138 | `<content>/about.md` has the URL "/about" |
| `Retriever.RenderItems` | coltrane/retriever.py:128-143 | the loop collects, in path order, the item of every path that is not a draft to skip |
| `Retriever.RenderItem` | coltrane/retriever.py:129-141 | one pass of the loop: nothing for a draft to skip (`skip_draft`, non-empty metadata, `draft` identically `True`), else the item with the path, metadata, relative URL and HTML |
| `Retriever.ContentItemsMembership` | coltrane/retriever.py:128-141 | an item is returned iff its path is a content path and it is not a draft to skip (`draft` identically `True`) |
| `Retriever.ContentItemsKeepAll` | coltrane/retriever.py:128-143 | without `skip_draft` there is one item per path, at the same position |
| `Retriever.ContentItemsInPathOrder` | coltrane/retriever.py:128-143 | the items follow the order of the paths |
| `PyStr.Split` | coltrane/templatetags/coltrane_tags.py:38 | `split(",")` gives at least one piece, none holding a comma, and joining them gives the string back |
| `PyStr.SplitJoin` | coltrane/templatetags/coltrane_tags.py:38 | splitting a join of comma-free pieces gives the pieces back |
| `PyStr.StripStripped` | coltrane/templatetags/coltrane_tags.py:41 | `strip()` leaves a string that neither starts nor ends with whitespace unchanged |
| `PyStr.StripIgnoresPadding` | coltrane/templatetags/coltrane_tags.py:41 | surrounding whitespace never changes what `strip()` returns |
| `PyStr.RemoveAll` | coltrane/retriever.py:21-24 | `replace(x, "")` never lengthens the string |
| `PyStr.RemoveAllAbsent` | coltrane/retriever.py:21-24 | `replace(x, "")` leaves a string in which x does not occur unchanged |
| `PyStr.RemoveAllLeading` | coltrane/retriever.py:21 | an occurrence at the start is removed and the scan carries on after it |
| `PyStr.RemoveAllPast` | coltrane/retriever.py:24 | a prefix that lacks the first character of x is kept whole, and the scan carries on after it |
| `PyStr.RemoveAllTwice` | coltrane/retriever.py:24 | removing x from `a + x + b + x` leaves `a + b` when neither piece holds x's first character |
| `PyStr.RemoveAllTrailing` | coltrane/retriever.py:24 | a pattern appended to a string it does not occur in is removed whole, when no occurrence can straddle the join |
| `PyStr.LastIndexOf` | coltrane/templatetags/coltrane_tags.py:112 | `rindex` fails iff the character is absent; otherwise it gives the position of the last occurrence |
| `PyStr.LastIndexOfSeparator` | coltrane/templatetags/coltrane_tags.py:112 | the last separator is the one after which no separator follows |
| `Paths.Name` | coltrane/retriever.py:21 | a path's name holds no "/", ends the path, and follows a "/" when shorter than the path |
| `Paths.NormalizeTrailingSlash` | coltrane/retriever.py:99 | a trailing "/" does not change the path |
| `Paths.JoinPathTrailingSlash` | coltrane/retriever.py:99 | joining a part with or without a trailing "/" gives the same path |
| `Paths.GlobMembership` | coltrane/retriever.py:104 | the glob yields exactly the walked entries whose name has the suffix |

## Left out

- Markdown rendering (`coltrane.renderer`, front matter, dates) is not part of this model. `render` and `metadataOf` are parameters.
- Reading and decoding the data files (`json.loads`, `pyjson5`, the JSON5 setting, the logged decode errors) is a `decode` parameter. `None` stands only for the failures the source catches: `json.decoder.JSONDecodeError` (coltrane/retriever.py:40) and `pyjson5.Json5DecoderException` (:33), which it logs, and an `ImportError` of `pyjson5` (:35), which it passes over; each leaves the value `None`.
- The filesystem (`exists`, `is_file`, `rglob`'s walk order) is the `FileSystem` parameter. Symlinks and the filesystem changing during a walk are not modelled.
- GetDataUpdates: a read error of `path.read_bytes()` (`OSError`) or a decode failure other than the caught ones (such as `UnicodeDecodeError` from `json.loads`) makes the source raise out of `get_data`; the model cannot fail and does not represent this.
- AddDataFromPaths: for the same reason, a file whose read or decode raises in the source yields a value or `None` here instead.
- GetDataUpdates: returns the dictionaries handed to `dict_merge` rather than the merged `data`. `dict_merge` (coltrane/utils) is not part of this model. `_add_data_from_path` rebinds its local `data` to the merge result, so any effect on the caller comes from that unseen function.
- `get_data`'s `DataCache` and the deprecation warning for `data.json` are left out: they are an external cache and a log message.
- Parent: models string paths only. The branch that takes a `WSGIRequest` (or any object with `path`) and uses its `path` is left out, because requests belong to Django.
- DirectoryContents: the request path is passed as a string. The `SafeString` conversion has no effect on the string's characters. The unused `content_directory` local is not modelled.
- IsContentSlugInString: a non-string exclude value, which fails the `assert isinstance`, is not modelled. The list is a `string` or missing.
- MergeContext: the layers are given in the order `for c in context` visits them. Django's `Context.__iter__` yields the most recently pushed dictionary first; that order lives in Django and is not part of this model. Context values are modelled as JSON-like `Value`s.
- The `select_template` cache in `IncludeMarkdownNode.render`, `do_include_md` and `render_html_with_django` are Django template machinery and are left out.
- `get_content_paths` is a generator: the model returns the whole sequence at once. Its `FileNotFoundError` is raised on the first `next()`. Laziness is not modelled.
- Paths: `PurePosixPath` normalisation keeps a leading "/" and drops empty and "." segments. POSIX's special meaning of a leading "//" is not modelled. ".." segments are kept as written, as in pathlib.
- Data file keys: the model proves the directory keys of a data file only when the data directory's path does not recur after it and the file name does not recur in its directories. `str.replace` removes those other occurrences too: in `<data>/here.json.old/here.json` the file name is also cut out of the directory name, which leaves the key ".old". The model computes that case as the source does, but no lemma characterises it.
