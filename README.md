# Big-JSON splitter and full-text-search dataset builder, in Dafny

This project models two small pieces of a data-engineering notebook
repository and proves properties of them.

* **The streaming JSON array splitter.** `split_json` receives a large JSON
  document and a dot path to an array inside it. It writes the array in
  chunks of `chunk_size` items to `arrays/1.json`, `arrays/2.json`, … below
  an output directory that must not exist yet. It then writes the document
  without that array to `data.json`. `delete_node` builds that residual
  document one path level at a time: with `ijson`, it streams the object at
  each level's prefix again, copies every key except the level's own, and
  links the copy into the previous level's dict. `take` is the
  `islice`-to-list helper that pulls each chunk.
* **The dataset builder for the "full text search anything" Alfred
  workflow.** It walks a Sphinx source tree. For every `.rst` page and
  every `.ipynb` notebook it reads the title and the `Keywords:` line and
  builds a row `{title, search, url}`, where `url` is the page's rendered
  `.html` on Read the Docs. It also models `tokenize`, the two extractors,
  the suffix dispatch, `get_url` and the row loop.

Files:

| file | module | contents |
|---|---|---|
| `wrappers.dfy` | `Wrappers` | `Option`, `Result`, `Outcome` |
| `strings.dfy` | `Strings` | the Python `str` operations used: `split`, `join`, `split()`, `lstrip`, `strip`, `lower`, `str(int)` |
| `json.dfy` | `Json` | JSON values, objects as insertion-ordered key/value lists (Python dicts), `d[k] = v`, and the `ijson` helpers `kvitems` and `items` as pure functions |
| `split_json.dfy` | `SplitJsonLocally` | `delete_node`, `take`, `split_json`, and a filesystem `class` for the output directory |
| `fts_dataset.dfy` | `FtsDataset` | `tokenize`, the rst and notebook extractors, `extract_title_and_keywords`, `get_url`, and the row loop as written and as evidently intended |

Modelling choices:

* **The input document.** It is an immutable `Json` value. Each pass of
  `ijson` over the file becomes a read of that value: `KvItems` for
  `kvitems(f, prefix)` and `ItemsAt` for `items(f, path + ".item")`.
  Because of this, `data.json` is computed from a fresh read and not from
  the consumed iterator.
* **The output directory.** After a successful run it is a map from a path
  below the directory to the JSON value dumped there (`SplitOutput`). The
  class `SplitJsonLocally.FileSystem` holds `dirs` and `files`, which
  `mkdir(parents=True)` and the writes update in place.
* **`delete_node`.** The model is a method with both of the source's loops.
  The aliasing of `parent_data` inside the dict built so far is modelled as
  a chain of per-level dicts and the keys that link them (`Linked`,
  `Nest`). The loop's result is proved equal to `Residual`, a direct
  structural definition, and the properties are proved about `Residual`.
* **Loops become methods.** `Tokenize`, `ScanLines`, `ExtractFromIpynb`,
  `WriteChunks`, `SplitJson`, `BuildDatasetAsWritten` and `BuildDataset`
  model loops or in-place updates of the source, so they are methods.
  Each is proved against a function that says what it computes (`Tokens`,
  `ScanOutcome`, `NotebookOutcome`, `Written`, `SplitOutput`,
  `AsWrittenOutcome`, `RowsOf`).
* **The suffix dispatch.** `extract_title_and_keywords` is a pure
  dispatch on the suffix, with no loop of its own. `ExtractTitleAndKeywords`
  is a method only because the two extractors it calls are methods; its
  result is `ExtractOutcome`, a function.

Some consequences of the code that are easy to miss:

* **A bad path.** A missing or non-object node along the path is read as
  an empty object, so its level becomes `{}` and no error is raised
  (`MissingBecomesEmpty`).
* **The chunk cap.** At most 999 chunks are written; the items after the
  first 999 chunks are dropped (`MaxChunks`, `WrittenItems`).
* **Key order.** Each re-linked key moves to the end of its parent dict
  (`ExampleReorders`); only dict equality with the structural deletion
  holds.
* **Existing files.** `mkdir(parents=True)` raises `FileExistsError` when
  the output directory exists, and also `NotADirectoryError` when a file
  sits where an ancestor directory should be.

## Model

| member | source | states |
|---|---|---|
| Strings.SplitOn | docs/source/02-Best-Practices/Process-Super-Big-JSON-File/split_json_locally.py:211 | `str.split(sep)` gives at least one piece, and no piece holds a separator or a character not in the input |
| Strings.JoinSplit | docs/source/02-Best-Practices/Process-Super-Big-JSON-File/split_json_locally.py:211-218 | joining the pieces of a split with the same separator gives back the string |
| Strings.SplitJoin | docs/source/02-Best-Practices/Process-Super-Big-JSON-File/split_json_locally.py:232 | splitting a join of separator-free pieces gives back exactly those pieces |
| Strings.JoinEmpty | docs/source/02-Best-Practices/Process-Super-Big-JSON-File/split_json_locally.py:229 | a join is "" exactly for no pieces or one empty piece |
| Strings.WordsSpec | build_fts_anything_dataset.py:32 | `str.split()` gives non-empty words without whitespace that in order spell the input with its whitespace taken out |
| Strings.LStrip | build_fts_anything_dataset.py:59 | `lstrip(chars)` removes the longest leading run of characters of the set and nothing else |
| Strings.RStrip | build_fts_anything_dataset.py:85 | `rstrip` removes the longest trailing run of characters of the set and nothing else |
| Strings.Lower | build_fts_anything_dataset.py:57 | `lower()` leaves no upper-case ASCII letter, turns each into its lower-case partner and keeps every other character |
| Strings.LowerIdempotent | build_fts_anything_dataset.py:57 | lower-casing an already lower-cased line changes nothing |
| Strings.Strip | build_fts_anything_dataset.py:85 | `strip()` leaves no whitespace at either end, and gives "" exactly when the line is all whitespace |
| Strings.NatToStringInjective | docs/source/02-Best-Practices/Process-Super-Big-JSON-File/split_json_locally.py:270 | different chunk numbers give different `f"{ith}"` names |
| Strings.DropEmptyIdempotent | build_fts_anything_dataset.py:32 | the `if word` filter applied twice is the filter applied once |
| Json.Put | docs/source/02-Best-Practices/Process-Super-Big-JSON-File/split_json_locally.py:228-232 | `d[k] = v` sets `k` to `v`, keeps every other key's value, keeps an existing key's place and appends a new key at the end |
| Json.PutKeepsUnique | docs/source/02-Best-Practices/Process-Super-Big-JSON-File/split_json_locally.py:228 | a dict built by `d[k] = v` never holds a key twice |
| Json.AsMapPut | docs/source/02-Best-Practices/Process-Super-Big-JSON-File/split_json_locally.py:228-232 | as a map, `d[k] = v` is a map update |
| Json.CopyExcept | docs/source/02-Best-Practices/Process-Super-Big-JSON-File/split_json_locally.py:224-228 | copying the streamed pairs except `key` into a fresh dict gives exactly the streamed keys other than `key`, each once |
| Json.CopyExceptAsMap | docs/source/02-Best-Practices/Process-Super-Big-JSON-File/split_json_locally.py:224-228 | as a map, the copy is the streamed object with `key` removed and every other value unchanged; an absent `key` removes nothing |
| Json.CopyExceptFilters | docs/source/02-Best-Practices/Process-Super-Big-JSON-File/split_json_locally.py:224-228 | for an object without repeated keys, the copy keeps the other pairs in stream order |
| Json.AsMapReorder | docs/source/02-Best-Practices/Process-Super-Big-JSON-File/split_json_locally.py:334-337 | dict equality, which the tests use, ignores key order: two objects without repeated keys holding the same pairs in any order are the same dict |
| Json.ResolveSnoc | docs/source/02-Best-Practices/Process-Super-Big-JSON-File/split_json_locally.py:226 | following one more key goes one level further down |
| Json.KvItems | docs/source/02-Best-Practices/Process-Super-Big-JSON-File/split_json_locally.py:226 | `kvitems(f, prefix)` yields the pairs of the object the prefix's keys lead to, the root's for "", and nothing unless an object is there |
| Json.ItemsAt | docs/source/02-Best-Practices/Process-Super-Big-JSON-File/split_json_locally.py:267 | `items(f, json_path + ".item")` yields the elements of the array the path's keys lead to, and nothing unless an array is there |
| SplitJsonLocally.PrefixAndKeyPairs | docs/source/02-Best-Practices/Process-Super-Big-JSON-File/split_json_locally.py:211-218 | a path of k segments gives k pairs; pair i is (the first i segments joined by ".", segment i) |
| SplitJsonLocally.PrefixIsRoot | docs/source/02-Best-Practices/Process-Super-Big-JSON-File/split_json_locally.py:229 | a level's prefix is "" exactly for the first level, and for the second level when the path starts with "." |
| SplitJsonLocally.PrefixRoundTrip | docs/source/02-Best-Practices/Process-Super-Big-JSON-File/split_json_locally.py:232 | `prefix.split(".")` recovers the segments before the level, so `[-1]` is the previous level's key |
| SplitJsonLocally.CopyLevel | docs/source/02-Best-Practices/Process-Super-Big-JSON-File/split_json_locally.py:224-228 | the inner loop builds the copy of the streamed pairs without the level's key |
| SplitJsonLocally.DeleteNode | docs/source/02-Best-Practices/Process-Super-Big-JSON-File/split_json_locally.py:156-236 | `delete_node` returns the residual document `Residual` for every document and every dot path |
| SplitJsonLocally.LinkLevels | docs/source/02-Best-Practices/Process-Super-Big-JSON-File/split_json_locally.py:220-234 | the level loop leaves exactly the chain of level dicts and linking keys that `LinkUpTo` describes after the last pair |
| SplitJsonLocally.LinkUpToLinked | docs/source/02-Best-Practices/Process-Super-Big-JSON-File/split_json_locally.py:220-234 | after every number of levels, for any level contents, the chain holds the consecutive levels since the last restart, linked by their keys |
| SplitJsonLocally.LevelsOfIsLevels | docs/source/02-Best-Practices/Process-Super-Big-JSON-File/split_json_locally.py:222-228 | the dicts copied pair by pair are the levels of the path |
| SplitJsonLocally.RestartStep | docs/source/02-Best-Practices/Process-Super-Big-JSON-File/split_json_locally.py:229-233 | a level with the root prefix becomes `new_data` and the start of a new chain |
| SplitJsonLocally.LinkStep | docs/source/02-Best-Practices/Process-Super-Big-JSON-File/split_json_locally.py:231-233 | any other level is stored in the previous level's dict under the last segment of its prefix |
| SplitJsonLocally.ResidualIsNest | docs/source/02-Best-Practices/Process-Super-Big-JSON-File/split_json_locally.py:220-236 | the linked chain of level dicts is the structural deletion, including the leading-"." case |
| SplitJsonLocally.NestLevels | docs/source/02-Best-Practices/Process-Super-Big-JSON-File/split_json_locally.py:220-236 | from any level on, the nested level dicts are the deletion below that level's node |
| SplitJsonLocally.ResidualPlain | docs/source/02-Best-Practices/Process-Super-Big-JSON-File/split_json_locally.py:220-236 | a path that does not start with "." deletes structurally from the root |
| SplitJsonLocally.ResidualLeading | docs/source/02-Best-Practices/Process-Super-Big-JSON-File/split_json_locally.py:229-233 | a path starting with "." restarts at the root on its second level and takes the deeper levels from below the root's "" key |
| SplitJsonLocally.RemoveGone | docs/source/02-Best-Practices/Process-Super-Big-JSON-File/split_json_locally.py:162-209 | following the path through the result finds nothing: the node is gone |
| SplitJsonLocally.ResidualGone | docs/source/02-Best-Practices/Process-Super-Big-JSON-File/split_json_locally.py:156-236 | for a path without a leading ".", the node at the path is gone from `delete_node`'s result |
| SplitJsonLocally.RemoveKeepsSiblings | docs/source/02-Best-Practices/Process-Super-Big-JSON-File/split_json_locally.py:162-209 | at every level every other key keeps its value, as a dict |
| SplitJsonLocally.RemoveStep | docs/source/02-Best-Practices/Process-Super-Big-JSON-File/split_json_locally.py:224-233 | a level with a deeper level below holds its copy with the level's key re-attached, at the end, to the deletion below |
| SplitJsonLocally.MissingBecomesEmpty | docs/source/02-Best-Practices/Process-Super-Big-JSON-File/split_json_locally.py:224-233 | a missing or non-object intermediate node raises nothing and comes back as `{}` under its key |
| SplitJsonLocally.ExampleTopLevel | docs/source/02-Best-Practices/Process-Super-Big-JSON-File/split_json_locally.py:163-172 | `{"id": 1, "delete": []}` without "delete" is `{"id": 1}` |
| SplitJsonLocally.ExampleNested | docs/source/02-Best-Practices/Process-Super-Big-JSON-File/split_json_locally.py:174-186 | "a.delete" gives `{"id": 1, "a": {}}` |
| SplitJsonLocally.ExampleTwoLevels | docs/source/02-Best-Practices/Process-Super-Big-JSON-File/split_json_locally.py:188-209 | "a.b.delete" keeps `a_value` and `b_value` |
| SplitJsonLocally.ExampleReorders | docs/source/02-Best-Practices/Process-Super-Big-JSON-File/split_json_locally.py:229-233 | a re-linked key moves behind its siblings; the result still equals the expected dict as a map |
| SplitJsonLocally.ExampleLeadingDot | docs/source/02-Best-Practices/Process-Super-Big-JSON-File/split_json_locally.py:211-233 | ".a.del" replaces the root's "a" by the object at `[""]["a"]` without "del" and leaves `[""]["a"]` whole |
| SplitJsonLocally.ExampleLeadingDotKept | docs/source/02-Best-Practices/Process-Super-Big-JSON-File/split_json_locally.py:211-280 | for ".a.del" the array at `[""]["a"]["del"]` is the one chunked, yet `data.json` still holds it, while the structural deletion removes it |
| SplitJsonLocally.Take | docs/source/02-Best-Practices/Process-Super-Big-JSON-File/split_json_locally.py:239-243 | `take(n, it)` returns the next min(n, remaining) items in order and advances the iterator past exactly those |
| SplitJsonLocally.Chunks | docs/source/02-Best-Practices/Process-Super-Big-JSON-File/split_json_locally.py:266-275 | every pull that is written holds between 1 and `chunk_size` items |
| SplitJsonLocally.NoChunks | docs/source/02-Best-Practices/Process-Super-Big-JSON-File/split_json_locally.py:269-272 | no chunk is written exactly when the chunk size is 0 or the array is empty |
| SplitJsonLocally.ChunksFull | docs/source/02-Best-Practices/Process-Super-Big-JSON-File/split_json_locally.py:266-275 | every chunk but the last holds exactly `chunk_size` items |
| SplitJsonLocally.ChunksCount | docs/source/02-Best-Practices/Process-Super-Big-JSON-File/split_json_locally.py:266-275 | there are ceil(len / chunk_size) chunks |
| SplitJsonLocally.FlattenChunksPrefix | docs/source/02-Best-Practices/Process-Super-Big-JSON-File/split_json_locally.py:266-275 | the first k chunks, concatenated, are the first k·chunk_size items of the array |
| SplitJsonLocally.WrittenItems | docs/source/02-Best-Practices/Process-Super-Big-JSON-File/split_json_locally.py:268-275 | the chunk files, concatenated, are the array truncated at 999·chunk_size items |
| SplitJsonLocally.ChunkFilesLayout | docs/source/02-Best-Practices/Process-Super-Big-JSON-File/split_json_locally.py:268-275 | chunk i (from 1) is in `arrays/{i}.json`, and there is no other chunk file |
| SplitJsonLocally.SplitOutputLayout | docs/source/02-Best-Practices/Process-Super-Big-JSON-File/split_json_locally.py:261-280 | the output holds `data.json` with the residual document and `arrays/1.json` … `arrays/{k}.json`, and nothing else |
| SplitJsonLocally.DirsOf | docs/source/02-Best-Practices/Process-Super-Big-JSON-File/split_json_locally.py:263 | `mkdir(parents=True)` makes the path and all its ancestors |
| SplitJsonLocally.FileSystem.constructor | docs/source/02-Best-Practices/Process-Super-Big-JSON-File/split_json_locally.py:258-263 | a filesystem with only the root directory |
| SplitJsonLocally.FileSystem.MakeDirs | docs/source/02-Best-Practices/Process-Super-Big-JSON-File/split_json_locally.py:263 | `mkdir(parents=True)` fails with `FileExistsError` on an existing path and with `NotADirectoryError` below a file, changing nothing; otherwise it adds the path and its ancestors |
| SplitJsonLocally.FileSystem.WriteJson | docs/source/02-Best-Practices/Process-Super-Big-JSON-File/split_json_locally.py:274-280 | dumping to a file in an existing directory sets that file and nothing else |
| SplitJsonLocally.FileSystem.FileAboveArrays | docs/source/02-Best-Practices/Process-Super-Big-JSON-File/split_json_locally.py:262-263 | `dir_out/arrays` has a file above it exactly when `dir_out` is a file or has one above it |
| SplitJsonLocally.WriteChunks | docs/source/02-Best-Practices/Process-Super-Big-JSON-File/split_json_locally.py:266-275 | the chunk loop adds exactly the chunk files of the capped chunk list and changes no directory |
| SplitJsonLocally.WrittenSoFar | docs/source/02-Best-Practices/Process-Super-Big-JSON-File/split_json_locally.py:268-272 | the loop's chunks are all there are once a pull is empty or the 999th chunk is written |
| SplitJsonLocally.SplitJson | docs/source/02-Best-Practices/Process-Super-Big-JSON-File/split_json_locally.py:246-280 | an existing `dir_out` gives `FileExistsError` with nothing created; a file above it gives `NotADirectoryError` with nothing created; a chunk size below 0 or above `sys.maxsize` gives the `ValueError` of `islice` after the directories are made; otherwise `dir_out` gets exactly the chunk files and `data.json` of `SplitOutput` |
| SplitJsonLocally.NothingBelow | docs/source/02-Best-Practices/Process-Super-Big-JSON-File/split_json_locally.py:258-263 | below a path that does not exist there is no file and no directory |
| SplitJsonLocally.ArraysFree | docs/source/02-Best-Practices/Process-Super-Big-JSON-File/split_json_locally.py:261-263 | after `mkdir` of `arrays` in a new `dir_out`, every chunk path and `data.json` are still free |
| FtsDataset.Blank | build_fts_anything_dataset.py:30-31 | after replacing the delimiters by spaces no delimiter other than a space is left, the length is kept, and every other character stays in place |
| FtsDataset.Tokenize | build_fts_anything_dataset.py:24-33 | `tokenize` returns the tokens of the string for the given delimiters, `DEFAULT_DELIMITERS` when none are given |
| FtsDataset.SplitBlank | build_fts_anything_dataset.py:30-32 | replacing delimiters by spaces and then splitting on whitespace is splitting on whitespace and delimiters at once |
| FtsDataset.TokensSpec | build_fts_anything_dataset.py:21-33 | the tokens are non-empty, hold no whitespace and no delimiter, and in order spell the string with its whitespace and delimiters removed |
| FtsDataset.DropPrefix | build_fts_anything_dataset.py:85 | `line[2:]` is what follows the first two characters, and "" for a shorter line |
| FtsDataset.LastHeaderIsLast | build_fts_anything_dataset.py:54-56 | the title comes from the last header so far: a later header overrides an earlier one |
| FtsDataset.FirstHitIsFirst | build_fts_anything_dataset.py:57-61 | the scan stops at the first keywords line with a title above it |
| FtsDataset.ScanLines | build_fts_anything_dataset.py:54-65 | the line loop of both extractors gives `ScanOutcome` |
| FtsDataset.ScanStep | build_fts_anything_dataset.py:55-61 | reading one line updates the title on a header and stops on a keywords line once a title is known |
| FtsDataset.ExtractFromRst | build_fts_anything_dataset.py:43-65 | the rst extractor gives the scan of the page's lines with an underline of 40 "=" |
| FtsDataset.ScanFailsIffNoHeader | build_fts_anything_dataset.py:62-65 | the extractor raises `FailedToExtractTitleAndKeywords` exactly when no line is a header |
| FtsDataset.ScanHit | build_fts_anything_dataset.py:54-61 | at the first keywords line, the title of the last header above it comes with that line's keywords |
| FtsDataset.ScanNoKeywords | build_fts_anything_dataset.py:62-63 | with a title but no keywords line after one, the last header's title comes with `[]` |
| FtsDataset.RstHeaderOnFirstLine | build_fts_anything_dataset.py:55-56 | an underline on line 0 takes the page's last line as the title |
| FtsDataset.KeywordsStripCharacters | build_fts_anything_dataset.py:57-59 | `lstrip("keywords: ")` strips a character set: "Keywords: word1, word2" gives the keywords "1" and "word2" |
| FtsDataset.FirstTitleCellIsFirst | build_fts_anything_dataset.py:78-80 | the notebook extractor reads the first markdown cell with a non-empty source, and finds none only when there is none |
| FtsDataset.ExtractFromIpynb | build_fts_anything_dataset.py:68-94 | the notebook extractor gives `NotebookOutcome`: the scan of that cell, or `None` |
| FtsDataset.CellStopsAt | build_fts_anything_dataset.py:78-94 | the first markdown cell with a source decides the outcome, whatever follows |
| FtsDataset.NotebookNoneIff | build_fts_anything_dataset.py:68-94 | the notebook extractor returns `None` exactly when no markdown cell has a source |
| FtsDataset.NotebookFirstCellOnly | build_fts_anything_dataset.py:78-94 | cells after the first markdown cell with a source change nothing |
| FtsDataset.RFind | build_fts_anything_dataset.py:124 | `rfind` gives the last index of the character, or -1 when it is absent |
| FtsDataset.Suffix | build_fts_anything_dataset.py:100 | `PurePath.suffix` is empty or a dot followed by dot-free characters, and ends the name without being all of it |
| FtsDataset.Stem | build_fts_anything_dataset.py:124 | `PurePath.stem` begins the name, and is empty only for an empty name |
| FtsDataset.DottedName | build_fts_anything_dataset.py:100 | a name with one inner dot has that dot as the border of stem and suffix |
| FtsDataset.StemSuffix | build_fts_anything_dataset.py:124 | a name is its stem followed by its suffix, and a suffix is a dot followed by characters without a dot |
| FtsDataset.ExtractTitleAndKeywords | build_fts_anything_dataset.py:97-105 | the dispatch gives `ExtractOutcome` |
| FtsDataset.ExtractBySuffix | build_fts_anything_dataset.py:97-105 | ".rst" gives the rst scan, never `None`; ".ipynb" gives the notebook outcome; any other suffix gives `UnknownIndexFileType` |
| FtsDataset.TrimSlash | build_fts_anything_dataset.py:122-123 | one trailing "/" of the domain is dropped, and the domain is kept otherwise |
| FtsDataset.GetUrl | build_fts_anything_dataset.py:108-128 | `get_url` succeeds for every page below the source directory, and its only error is the `ValueError` of `relative_to` |
| FtsDataset.GetUrlBelow | build_fts_anything_dataset.py:108-128 | a page `rel/name` below the source directory gets `domain/rel/stem.html` |
| FtsDataset.GetUrlOutside | build_fts_anything_dataset.py:124-126 | a page whose ".html" path is not below the source directory gives the `ValueError` of `relative_to` |
| FtsDataset.UrlSegments | build_fts_anything_dataset.py:122-127 | the URL starts with the domain and one "/", and the rest splits back into the page's directories and its ".html" name |
| FtsDataset.GetUrlExample | build_fts_anything_dataset.py:114-120 | the docstring's example gives `https://my_dataset.readthedocs.io/chapter1/section1/index.html` |
| FtsDataset.Search | build_fts_anything_dataset.py:167 | `search` starts with the title and a space, and is just that when there are no keywords |
| FtsDataset.SearchWords | build_fts_anything_dataset.py:167 | split on whitespace, `search` gives the title's words followed by the keywords, when the keywords are non-empty and free of whitespace |
| FtsDataset.SearchTokens | build_fts_anything_dataset.py:167 | keywords from `tokenize` always come back out of `search` in order, after the title's words |
| FtsDataset.RowOf | build_fts_anything_dataset.py:152-173 | a page gives a row only with an index suffix and a successful extraction; the row holds the title, the search text and the page's URL |
| FtsDataset.UrlBelow | build_fts_anything_dataset.py:151-162 | every page the recursive glob yields has a URL |
| FtsDataset.RowOfBelow | build_fts_anything_dataset.py:151-177 | a page below the source directory gives a row exactly when it has an index suffix and its extraction gives a title |
| FtsDataset.RowsOfAppend | build_fts_anything_dataset.py:150-173 | the rows of two runs of pages are the rows of the first run followed by those of the second |
| FtsDataset.RowsSound | build_fts_anything_dataset.py:150-177 | every row comes from a page whose extraction succeeded |
| FtsDataset.RowsComplete | build_fts_anything_dataset.py:150-177 | every page that gives a row has it in the dataset |
| FtsDataset.AbortsIsNotebook | build_fts_anything_dataset.py:68-94 | only a notebook without a markdown cell that has a source makes `title, keywords = ...` fail |
| FtsDataset.FirstTrueNone | build_fts_anything_dataset.py:150-177 | the loop meets no aborting page exactly when no page aborts |
| FtsDataset.AsWrittenAbortsIff | build_fts_anything_dataset.py:150-177 | the build as written fails exactly when some page aborts it, and otherwise gives the same rows as the intended build |
| FtsDataset.BuildDatasetAsWritten | build_fts_anything_dataset.py:150-177 | the row loop as written gives `AsWrittenOutcome`: `TypeError` at the first aborting notebook, otherwise the rows |
| FtsDataset.AbortStep | build_fts_anything_dataset.py:156-177 | an aborting page ends the loop with `TypeError`, which neither `except` clause catches |
| FtsDataset.BuildDataset | build_fts_anything_dataset.py:150-177 | the intended row loop gives one row per page that yields one, in page order: every row comes from such a page, and every such page's row is there |
| FtsDataset.EmptyNotebookAborts | build_fts_anything_dataset.py:150-177 | `index.ipynb` with no cells aborts the build as written, while the intended build skips it |

## Left out

- I/O: reading and streaming files, `ijson`'s parser, `json.dump`'s formatting, file handles, `read_text`, `glob`, `rmtree`, `print`, the `settings` file and the `dry_run` branch. Pages arrive already read, as lines or cells, in the order the glob yields them; the output is a map from paths to JSON values.
- Bounded memory: the point of the streaming design cannot be stated about values.
- `make_data`, the `__main__` timing harness and the rest of the repository: data generation, wall-clock timing and cloud glue.
- `ijson`'s prefix strings are not injective: a key holding "." or equal to "item", and an array along the path, make a prefix match other nodes too. The model reads a prefix as object keys split at ".", with "" as the root.
- KvItems: for a key repeated along the prefix (`{"a": {"x": 1}, "a": {"y": 2}}`), `ijson` streams the pairs of every matching object, while the model follows the first occurrence only; nested values keep repeated keys, which `ijson`'s dict builder collapses to the last.
- ItemsAt: for a key repeated along the path, `ijson` streams the elements of every matching array in turn; the model takes the first occurrence's array only.
- DeleteNode: equals `Residual`, which reads each level through `KvItems`; for a document with a key repeated along the path, `data.json` as the source writes it merges the matching objects, and the model does not.
- SplitJson: reads the array through `ItemsAt` and the residual through `DeleteNode`, so the repeated-key case above is left out here too.
- Floating-point numbers: the JSON model has integers only.
- Strings.Lower: only ASCII letters are lower-cased; Python's full Unicode case mapping is not modelled.
- Strings.Whitespace: it holds the characters `str.isspace` accepts; the encoding and decoding of text is not modelled.
- Tokenize: a delimiter is one character; `str.replace` with a longer delimiter is not modelled, and neither is the empty delimiter (for which `replace` inserts spaces between all characters).
- ExtractFromIpynb: a notebook that is not valid JSON, or whose cells lack `cell_type` or `source`, raises in `json.loads` or with `KeyError`; the cells arrive already parsed.
- GetUrl: paths are segment sequences without `..`, normalisation, drive letters or separators other than "/".
- BuildDataset: the `keywords is None` branch of the search text is dead (no extractor returns `None` keywords) and is not modelled.
- BuildDataset: requires every page to be strictly below the source directory, as the recursive glob guarantees, so the `ValueError` of `get_url` cannot occur there; `GetUrlOutside` states that error on its own.
- BuildDatasetAsWritten: requires every page to be strictly below the source directory, for the same reason.
- SplitJson: a write that fails in the operating system (disk full, permissions) is not modelled; writes into an existing directory always succeed.

## Findings

| source | as written | input that shows it | evidently intended | confidence | as-written member | corrected member |
|---|---|---|---|---|---|---|
| docs/source/02-Best-Practices/Process-Super-Big-JSON-File/split_json_locally.py:211-233 | a dot path starting with "." has an empty first segment, so its second level also gets the prefix "" and restarts `new_data` from the root; the deeper levels walk below the root's "" key, while `items` chunks the array found there | `{"": {"a": {"x": 1, "del": [7]}}, "a": 5}` with the path ".a.del": `arrays/1.json` holds `[7]`, yet `data.json` still holds `[""]["a"]["del"]`, and the root's "a" becomes `{"x": 1}` | remove the chunked array from the residual document and leave every other key alone | not executed; the path is unusual, so this may simply be unsupported input | SplitJsonLocally.ExampleLeadingDotKept | SplitJsonLocally.RemoveGone |
| build_fts_anything_dataset.py:156 | the notebook extractor falls off its end and returns `None` when no markdown cell has a non-empty source; `title, keywords = None` raises `TypeError`, which neither `except` clause catches, so the whole build stops | a page `index.ipynb` with no cells (`{"cells": []}`) below the source directory | skip the page like one whose title cannot be extracted | not executed | FtsDataset.BuildDatasetAsWritten, FtsDataset.EmptyNotebookAborts | FtsDataset.BuildDataset |
