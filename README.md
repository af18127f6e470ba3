# GitHub repository analyzer, modelled in Dafny

This project models the core of `main.py`, a command-line tool. Given a GitHub
repository locator, the tool:

- walks the repository's directory tree through the GitHub contents interface;
- draws the tree as indented text lines;
- reads every file's text through a per-analyzer content cache;
- writes a Markdown document: the tree in a fenced block, then one section per
  file.

The model has these modules:

- `UrlParser` — `_parse_github_url`.
  - The two regular expressions become a hand-written matcher. It follows the
    backtracking order of Python's `re` engine: greedy `[^/]+` runs, the
    optional `.git`, the optional `/`, and `$`. `$` matches at the end of the
    string or just before a final newline.
  - `re.search` is the leftmost start position that matches.
  - The patterns are tried in order, in a loop with an early return.
- `Remote` — what the contents interface returns.
  - A directory listing is a finite tree. Each directory entry carries the
    listing of its own directory, and a listing may fail.
  - The reply to a file request either fails, or is a payload whose `content`
    field may be missing.
- `EntryOrder` — the sort key `(type != 'dir', name)` of `process_path`.
  - Names compare by Python's code-point order.
  - The model sorts with a stable insertion sort. By `SortEntriesSorted`,
    `SortEntriesPermutation` and `SortEntriesStable` it gives the same order
    as Python's `sorted` (Timsort, also stable).
- `OrderedDict` — the `contents` dictionary: a Python `dict` with insertion
  order and overwrite-in-place semantics.
- `TreeWalk` — the output of `process_path` as a pure function.
  - It produces the structure lines and, in visiting order, the files to read.
  - It is paired with reference definitions over the unsorted tree: the entry
    count, whether some directory cannot be listed, and the set of file paths.
- `Analyzer` — the class `GitHubRepoAnalyzer`.
  - `content_cache` is a `map` field, and a request log records every content
    request.
  - `get_file_content`, `process_path` and `analyze_repo` are methods that
    update that state. `GetFileContent` is proved against the function
    `FileContent`; `ProcessPath` and `AnalyzeRepo` are proved against the pure
    walk, and their new request log and cache keys against `Requested` and
    `Cached`, which read the walk's files in order through the cache.
- `Document` — `save_analysis`: the document text, built piece by piece.
- `Session` — two rules from `main`: the append-if-absent repository history
  and the numbered menu.

Two behaviours of the code that are easy to miss:

- A failed file request is not cached, because the exception leaves
  `get_file_content` before the cache is written. A later entry with the same
  locator therefore requests it again. Only a locator whose reply arrived is
  requested at most once.
- Python's `$` also accepts a string that ends in one newline. The parser
  models this instead of assuming stripped input.

## Model

| member | source | states |
|---|---|---|
| UrlParser.MatchAt | main.py:18-19 | the first match of a pattern anchored at a start position, in the engine's greedy order: `github.com`, the separator, the owner run up to `/`, the repository run up to `/` (and `.` for the first pattern), then the optional suffix and `$`; its properties are in `MatchAtGroups`, `MatchSound` and `MatchComplete` |
| UrlParser.Search | main.py:22 | `re.search`: the match at the leftmost start position that matches; its properties are in `First`, `SearchFinds` and `SearchNone` |
| UrlParser.Found | main.py:21-23 | what searching for the `k`-th pattern finds in the locator |
| UrlParser.First | main.py:22 | `re.search` is leftmost: the returned start position matches and no earlier position does, or no position matches |
| UrlParser.MatchAtGroups | main.py:18-19 | the owner group is non-empty and has no `/`; the repository group is non-empty and has no `/`, and for the first pattern no `.` |
| UrlParser.MatchSound | main.py:18-19 | every match the matcher returns at a position is a way the pattern spells the string from there to `$` |
| UrlParser.MatchComplete | main.py:18-19 | whenever the pattern can match at a position, the matcher finds the same owner and a repository group that extends the given one (greedy); without a final newline it is exactly that match |
| UrlParser.SearchFinds | main.py:22 | the first start position that matches gives the search's result |
| UrlParser.SearchNone | main.py:22-23 | a search finds nothing exactly when no start position matches |
| UrlParser.ParseGitHubUrl | main.py:15-29 | success returns the groups of the first pattern that is found, and no earlier pattern is found; otherwise the invalid-URL message is raised and neither pattern is found |
| UrlParser.HttpsForm | main.py:17-24 | `https://github.com/o/r` is parsed to `(o, r)` by the first pattern |
| UrlParser.SshForm | main.py:17-24 | `git@github.com:o/r.git` is parsed to `(o, r)` by the first pattern, without the `.git` |
| UrlParser.TrailingSlashForm | main.py:17-24 | `https://github.com/o/r/` defeats the first pattern and is parsed to `(o, r)` by the second |
| UrlParser.SlashEndDefeatsHostPath | main.py:18 | a string ending in `/` never matches the first pattern |
| UrlParser.DottedName | main.py:18-19 | a dotted name made of two pieces the first pattern accepts is accepted by the second |
| UrlParser.DottedRepoForm | main.py:17-24 | `https://github.com/o/r1.r2`, where `r2` is not `git`, defeats the first pattern and is parsed by the second with the whole dotted name |
| UrlParser.NoHostNoMatch | main.py:17-29 | a string without `github.com` is found by neither pattern, so the invalid-URL error is raised |
| UrlParser.OnlyCandidate | main.py:22 | when `github.com` occurs only at one position and the pattern fails there, the search finds nothing |
| Remote.JoinPath | main.py:65 | the full path is the name at the root, otherwise the parent path, one `/` and the name |
| EntryOrder.LexLe | main.py:61 | Python's `<=` on names: code-point order, a prefix first |
| EntryOrder.KeyLe | main.py:61 | the order of the key `(type != 'dir', name)`: a directory before a non-directory, otherwise by name |
| EntryOrder.Insert | main.py:61 | one step of the stable sort: the entry goes before the first entry whose key is not smaller |
| EntryOrder.SortEntries | main.py:61 | the processing order of one listing; its properties are in `SortEntriesSorted`, `SortEntriesPermutation` and `SortEntriesStable` |
| EntryOrder.LexLeTotal | main.py:61 | any two names are comparable in code-point order |
| EntryOrder.LexLeAntisymmetric | main.py:61 | names ordered both ways are equal |
| EntryOrder.LexLeTransitive | main.py:61 | code-point order on names is transitive |
| EntryOrder.KeyLeTotal | main.py:61 | the sort key `(type != 'dir', name)` orders any two entries, and equal keys compare as ordered |
| EntryOrder.KeyLeTransitive | main.py:61 | the sort key order is transitive |
| EntryOrder.KeyLeAntisymmetric | main.py:61 | entries ordered both ways have equal keys |
| EntryOrder.InsertPermutation | main.py:61 | one insertion step adds exactly the inserted entry |
| EntryOrder.InsertSorted | main.py:61 | inserting into a sorted list keeps it sorted |
| EntryOrder.InsertWithKey | main.py:61 | inserting puts the new entry before every entry that has its key |
| EntryOrder.SortEntriesPermutation | main.py:61 | the sorted listing is a permutation of the listing |
| EntryOrder.SortEntriesSorted | main.py:61 | in the sorted listing every directory precedes every other entry, and names ascend within each group |
| EntryOrder.SortEntriesStable | main.py:61 | entries with equal keys keep the order the remote listed them in (`sorted` is stable) |
| EntryOrder.NameOrderExample | main.py:61 | `b.txt` does not sort before `a.txt` |
| EntryOrder.DirFirstExample | main.py:61 | a directory is placed before a file whatever their names |
| EntryOrder.SortExample | main.py:61 | files `b.txt`, `a.txt` and directory `z` are processed as `z`, `a.txt`, `b.txt` |
| OrderedDict.Get | main.py:57 | a lookup finds a value exactly when the key is in the dictionary |
| OrderedDict.Put | main.py:73-75 | assignment makes the key map to the value and leaves other keys alone; a new key goes at the end, and distinct keys stay distinct |
| OrderedDict.PutInPlace | main.py:73-75 | assigning to a present key keeps every entry in its position and changes only that key's value, as Python's dict does |
| OrderedDict.PutAll | main.py:73-75 | the assignments `contents[path] = value` of a run of pairs, in order |
| OrderedDict.PutAllAppend | main.py:73-75 | assigning two runs of entries is assigning the first, then the second |
| OrderedDict.PutAllKeys | main.py:73-75 | after a run of assignments the keys are the old keys plus the assigned ones, and distinct keys stay distinct |
| OrderedDict.PutAllLastWins | main.py:73-75 | after a run of assignments a key maps to the last value assigned to it, or to its old value if it was not assigned |
| OrderedDict.PutAllFresh | main.py:73-75 | assigning distinct new keys appends them in order |
| TreeWalk.Connector | main.py:64 | `└── ` for the last sibling, `├── ` otherwise |
| TreeWalk.Extension | main.py:69 | four spaces for the last sibling, `│` and three spaces otherwise |
| TreeWalk.Walk | main.py:59-62 | the output of `process_path` over a listing: its error if the listing fails, else the walk of its sorted entries; its properties are in `WalkFacts`, `Layout` and `LayoutNext` |
| TreeWalk.WalkFrom | main.py:63-75 | the loop over the sorted entries from index `i`: each entry's output in turn, stopping at the first error |
| TreeWalk.Visit | main.py:64-75 | one entry: its line `prefix + connector + name`, then a directory's walk with the extended prefix, or the file's full path and locator to read |
| TreeWalk.SortInvariant | main.py:61 | sorting a listing changes neither its entry count, nor whether some directory below it cannot be listed, nor its file paths |
| TreeWalk.VisitFacts | main.py:63-75 | one entry's output exists exactly when nothing below it fails; it has one line per entry of its subtree and the subtree's file paths |
| TreeWalk.WalkFacts | main.py:59-75 | the walk succeeds exactly when every directory can be listed; then it has one line per entry of the tree and records exactly the paths of the non-directory entries |
| TreeWalk.Placement | main.py:63-70 | entry `i` of the sorted listing has its output right after the outputs of its earlier siblings and their subtrees |
| TreeWalk.Layout | main.py:63-70 | entry `i`'s line is `prefix + connector + name`, with `└── ` exactly for the last sibling; a directory's subtree, drawn with the prefix extended by four spaces or by `│` and three spaces, follows that line immediately; a file is recorded under its full path |
| TreeWalk.LayoutNext | main.py:63-70 | the next sibling's line comes right after the whole subtree of the previous sibling, and the last sibling's subtree ends the listing's output |
| Analyzer.FileContent | main.py:37-52 | what `get_file_content` yields for a locator whatever the cache holds: the request's error, or the text of the reply |
| Analyzer.Recorded | main.py:72-75 | the value stored in `contents`: the text, or `Error reading file: ` and the error's message |
| Analyzer.Resolved | main.py:72-75 | the contents entries for a walk's files, in visiting order |
| Analyzer.Extend | main.py:66-75 | the accumulators after a walk: its lines appended to `structure` and its files assigned into `contents`, or the walk's error |
| Analyzer.ContentText | main.py:44-51 | a payload without `content` gives the non-text marker, content that does not decode gives the decoding marker, and otherwise the decoded text |
| Analyzer.ResolvedKeys | main.py:72-75 | the contents entries of a walk have exactly the walk's file paths as keys |
| Analyzer.DirStep | main.py:66-70 | a directory contributes its line and then its subtree's walk, and a subtree that cannot be listed fails the analysis with its error |
| Analyzer.FileStep | main.py:66-67 | a file contributes its line and then its contents, under its full path |
| Analyzer.AnalysisFacts | main.py:54-78 | `analyze_repo` succeeds exactly when every directory can be listed; then there is one structure line per entry of the tree, the contents keys are exactly the non-directory full paths, and no key occurs twice |
| Analyzer.ResolvedGet | main.py:72-75 | with distinct paths, each file's path maps to the text it reads as, or to `Error reading file: ` and the request's error |
| Analyzer.AnalysisContents | main.py:72-75 | when the walk names each file once, the contents are the files in visiting order, each mapped to what reading it yields; a failed read is recorded and does not stop the walk |
| Analyzer.CachedKeys | main.py:39-51 | after reading a run of locators, the cache holds the locators it held and exactly those read whose reply arrived |
| Analyzer.RequestCount | main.py:39-41 | reading a run of locators requests a cached locator never, a locator whose reply arrives exactly once however often it occurs, and a locator whose request fails at every occurrence |
| Analyzer.RunRequestsOnce | main.py:39-51 | over a run, a locator that was not cached, occurs among the files and whose reply arrives is requested exactly once and ends up cached |
| Analyzer.RequestedAppend | main.py:63-75 | reading two runs of locators in turn makes the requests of the first, then those of the second from the cache the first left |
| Analyzer.LogChain | main.py:63-75 | the requests and cache changes of two runs of files read in turn compose |
| Analyzer.LogRead | main.py:39-51 | reading one file: a cached locator changes nothing, otherwise it is requested and cached when its reply arrives |
| Analyzer.Open | main.py:9-13 | creating an analyzer parses the locator first, and an invalid one raises the invalid-URL error; otherwise the owner and repository are those parsed and the cache starts empty |
| Analyzer.GitHubRepoAnalyzer.constructor | main.py:9-13 | a new analyzer has the parsed owner and repository, an empty cache and no requests |
| Analyzer.GitHubRepoAnalyzer.GetFileContent | main.py:37-52 | the result is what the locator reads as; a cached locator makes no request and leaves the cache as it was; otherwise exactly one request is made, and a reply that arrived is cached; the cache invariant is kept |
| Analyzer.GitHubRepoAnalyzer.ProcessPath | main.py:59-75 | the accumulators end as the walk of the listing dictates, or the first listing error is raised; on success the requests made are exactly `Requested` over the locators of the walk's files in order from the old cache keys, and the new cache keys are `Cached` of them; the cache stays correct, a locator whose reply arrived is never requested twice, and the cache and the request log only grow |
| Analyzer.GitHubRepoAnalyzer.ProcessEntry | main.py:63-75 | one turn of the loop adds the entry's line and then its directory walk or its file contents, as the walk dictates; on success its requests and cache keys are those of reading the entry's files through the cache |
| Analyzer.GitHubRepoAnalyzer.AnalyzeRepo | main.py:54-78 | the result is the walk of the whole tree, from empty accumulators; on success the requests made and the new cache keys are those of reading the tree's files in visiting order through the cache |
| Document.Join | main.py:85 | `"\n".join(structure)`: the lines with a newline between each two; `SplitJoin` and `JoinSplit` tie it to its inverse `Split` |
| Document.SplitJoin | main.py:85 | joining the split pieces of a text with newlines gives the text back |
| Document.JoinSplit | main.py:85 | lines without newlines, joined with newlines, split back into the same lines |
| Document.Section | main.py:89-92 | one contents entry: `## `, the path, a blank line, then the content in a fence |
| Document.Sections | main.py:88-92 | the sections of the entries in dictionary order |
| Document.Preamble | main.py:83-87 | the structure heading, the fenced joined structure lines and the contents heading |
| Document.Document | main.py:83-92 | the whole text: the preamble, then the sections |
| Document.SaveAnalysis | main.py:80-92 | the text written, piece by piece, is the structure heading, the fenced joined structure lines, the contents heading, and the sections in dictionary order |
| Document.SectionsSnoc | main.py:88-92 | one more dictionary entry adds its section at the end |
| Document.SectionsAppend | main.py:88-92 | the sections of two runs of entries are those of the first run followed by those of the second |
| Document.StructureBlock | main.py:83-86 | the structure block follows the heading and the opening fence, and it splits back into the structure lines |
| Document.SectionPlacement | main.py:87-92 | each entry's section follows the preamble and the sections of the entries before it, and precedes those of the entries after it |
| Session.Remember | main.py:155-158 | after a run the history contains the locator, keeps its earlier entries in order, grows by at most one entry, and stays free of duplicates |
| Session.RememberIdempotent | main.py:156-158 | remembering the same locator twice is remembering it once |
| Session.RememberGrows | main.py:156-158 | the history grows exactly when the locator is new, and then by that locator at the end |
| Session.Select | main.py:130-153 | a number outside `0..len(repos)` is invalid exactly when there is a history; a chosen locator is non-empty and comes from the history, the answer itself or the prompt for a new locator |
| Session.Numbered | main.py:132-133 | the menu lists the history in order, numbered from 1 |
| Session.SelectNumbered | main.py:132-141 | the number shown next to a saved locator chooses it, and `0` leads to the prompt for a new locator |
| Session.SelectText | main.py:145-147 | a non-numeric answer is the locator itself, and an empty one means no locator was entered |

## Left out

- HTTP: the `requests` calls, `raise_for_status`, `response.json()`, the `Authorization` header and `base_url` are not modelled. Every directory listing the walk can reach is given up front as the finite tree `root`. Every file request is a fixed function `fetch` from locator to reply. `RequestFailed` stands for any exception raised by the request, the status check or the JSON parsing.
- Remote cycles: a remote whose directories contain themselves cannot be expressed as a finite tree, so the non-terminating walk it would cause is not modelled.
- Entry fields: only `name`, `type` and `url` of a listing entry are kept.
- Decoding: base64 and UTF-8 decoding are one abstract partial function `decode`. Python's lenient `b64decode` is not modelled.
- Missing entry fields: a listing entry without `name` or `type` makes the sort key raise `KeyError`, which aborts the analysis; the model's entries always carry both fields, so this error path is not modelled.
- Exception messages: `str(e)` of a caught exception is the error string carried by the failed reply or listing.
- File output: opening the output file, its UTF-8 encoding and its name `<repo>.md` are not modelled. `SaveAnalysis` returns the text that would be written.
- History persistence: `load_repos` and `save_repos` (JSON file I/O) are not modelled.
- The rest of `main`:
  - the token lookup, `print` and `input`, `strip`, the output directories and the top-level exception message are not modelled;
  - `int(choice)` is given to `Select` as its result, or `None` when it raises `ValueError`.
- Analyzer.AnalysisContents: states the exact contents only when the walk names each file once. A remote repeating a name in one listing would make a later file overwrite an earlier one, which `OrderedDict.PutAllLastWins` describes.
- Analyzer.GitHubRepoAnalyzer.ProcessPath: the structure list and contents dict, which Python appends to in place, are accumulator values passed in and returned, not shared mutable objects.
