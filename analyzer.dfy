/** `GitHubRepoAnalyzer`: the content cache, the file reader built on it and
    the recursive walk that assembles the structure lines and the contents
    dictionary.

    The remote is seen through three values fixed when the analyzer is
    created: `root`, the listing tree of the repository; `fetch`, the reply to
    a request for a content locator; and `decode`, base64 decoding followed by
    UTF-8 decoding, `None` when either fails. Because they are fixed, what a
    file reads as does not depend on the cache: the cache only saves
    requests, which the `requests` log records. */
module Analyzer {
  import opened Wrappers
  import opened Remote
  import opened EntryOrder
  import opened TreeWalk
  import opened OrderedDict
  import opened UrlParser

  const NonTextMessage: string := "Non-text content or unexpected format."
  const DecodeErrorMessage: string := "Error decoding content (possibly binary file)."
  const ReadErrorPrefix: string := "Error reading file: "

  /** The text cached for a reply that arrived: the marker for a payload
      without `content`, the marker for content that does not decode, or the
      decoded text. */
  function ContentText(content: Option<string>, decode: string -> Option<string>): (t: string)
    ensures content.None? ==> t == NonTextMessage
    ensures content.Some? && decode(content.value).None? ==> t == DecodeErrorMessage
    ensures content.Some? && decode(content.value).Some? ==> t == decode(content.value).value
  {
    match content
    case None => NonTextMessage
    case Some(c) =>
      match decode(c)
      case None => DecodeErrorMessage
      case Some(text) => text
  }

  /** What `get_file_content` yields for a locator, whatever the cache holds:
      the request's error, or the text of its reply. */
  function FileContent(fetch: string -> Reply, decode: string -> Option<string>, url: string): Result<string> {
    match fetch(url)
    case RequestFailed(m) => Err(m)
    case Payload(c) => Ok(ContentText(c, decode))
  }

  /** What `contents[full_path]` is set to: the text, or the error message. */
  function Recorded(r: Result<string>): string {
    match r
    case Ok(text) => text
    case Err(m) => ReadErrorPrefix + m
  }

  /** The dictionary entries for the files of a walk, in visiting order. */
  function Resolved(fetch: string -> Reply, decode: string -> Option<string>, fs: seq<FileRef>): Dict {
    if fs == [] then []
    else [(fs[0].path, Recorded(FileContent(fetch, decode, fs[0].url)))] + Resolved(fetch, decode, fs[1..])
  }

  /** The result of `analyze_repo`: the structure lines and the contents dictionary. */
  datatype Analysis = Analysis(structure: seq<string>, contents: Dict)

  /** The accumulators after a walk that started from `acc`: its lines appended
      to the structure and its files assigned into the contents, or the walk's
      error, which aborts the analysis. */
  function Extend(fetch: string -> Reply, decode: string -> Option<string>, acc: Analysis, w: Result<Output>): Result<Analysis> {
    match w
    case Err(m) => Err(m)
    case Ok(o) => Ok(Analysis(acc.structure + o.lines, PutAll(acc.contents, Resolved(fetch, decode, o.files))))
  }

  lemma {:induction false} ResolvedAppend(fetch: string -> Reply, decode: string -> Option<string>, a: seq<FileRef>, b: seq<FileRef>)
    ensures Resolved(fetch, decode, a + b) == Resolved(fetch, decode, a) + Resolved(fetch, decode, b)
  {
    if a != [] {
      assert (a + b)[0] == a[0] && (a + b)[1..] == a[1..] + b;
      ResolvedAppend(fetch, decode, a[1..], b);
    } else {
      assert a + b == b;
    }
  }

  /** The dictionary holds exactly the paths the walk recorded. */
  lemma {:induction false} ResolvedKeys(fetch: string -> Reply, decode: string -> Option<string>, fs: seq<FileRef>)
    ensures Keys(Resolved(fetch, decode, fs)) == Paths(fs)
  {
    if fs != [] {
      ResolvedKeys(fetch, decode, fs[1..]);
      assert Resolved(fetch, decode, fs)[1..] == Resolved(fetch, decode, fs[1..]);
    }
  }

  /** Appending one more piece of a walk to the accumulators. */
  lemma ExtendStep(fetch: string -> Reply, decode: string -> Option<string>, acc: Analysis, done: Output, v: Output)
    ensures Extend(fetch, decode, acc, Ok(Output(done.lines + v.lines, done.files + v.files)))
         == Extend(fetch, decode, Extend(fetch, decode, acc, Ok(done)).value, Ok(v))
  {
    ResolvedAppend(fetch, decode, done.files, v.files);
    PutAllAppend(acc.contents, Resolved(fetch, decode, done.files), Resolved(fetch, decode, v.files));
    assert acc.structure + (done.lines + v.lines) == acc.structure + done.lines + v.lines;
  }

  /** One more entry of the loop: its piece of output joins what is done,
      unless it fails, which fails the whole walk. */
  lemma WalkStep(l: Listing, items: seq<Entry>, idx: nat, path: string, prefix: string, done: Output)
    requires l.Listed? && items == SortEntries(l.entries) && idx < |items|
    ensures var v := Visit(items[idx], idx == |items| - 1, path, prefix);
            Prepend(done.lines, done.files, WalkFrom(l, items, idx, path, prefix))
            == if v.Err? then Err(v.error)
               else Prepend(done.lines + v.value.lines, done.files + v.value.files, WalkFrom(l, items, idx + 1, path, prefix))
  {
    var v := Visit(items[idx], idx == |items| - 1, path, prefix);
    var rest := WalkFrom(l, items, idx + 1, path, prefix);
    if v.Ok? && rest.Ok? {
      assert done.lines + (v.value.lines + rest.value.lines) == done.lines + v.value.lines + rest.value.lines;
      assert done.files + (v.value.files + rest.value.files) == done.files + v.value.files + rest.value.files;
    }
  }

  lemma LoopEntry(fetch: string -> Reply, decode: string -> Option<string>, l: Listing, path: string, prefix: string, acc: Analysis)
    requires l.Listed?
    ensures Walk(l, path, prefix) == Prepend([], [], WalkFrom(l, SortEntries(l.entries), 0, path, prefix))
    ensures Ok(acc) == Extend(fetch, decode, acc, Ok(Output([], [])))
  {
    assert acc.structure + [] == acc.structure;
    match WalkFrom(l, SortEntries(l.entries), 0, path, prefix) {
      case Err(_) =>
      case Ok(o) => assert [] + o.lines == o.lines && [] + o.files == o.files;
    }
  }

  lemma LoopExit(fetch: string -> Reply, decode: string -> Option<string>, l: Listing, items: seq<Entry>, path: string, prefix: string, acc: Analysis, done: Output)
    requires l.Listed? && items == SortEntries(l.entries)
    requires Walk(l, path, prefix) == Prepend(done.lines, done.files, WalkFrom(l, items, |items|, path, prefix))
    ensures Walk(l, path, prefix) == Ok(done)
  {
    assert done.lines + [] == done.lines && done.files + [] == done.files;
  }

  /** A directory entry: its line, then its subtree's walk, started from the
      accumulators with that line appended. */
  lemma DirStep(fetch: string -> Reply, decode: string -> Option<string>, acc: Analysis, done: Output,
                e: Entry, last: bool, path: string, prefix: string, sub: Result<Analysis>)
    requires IsDir(e) && Extend(fetch, decode, acc, Ok(done)).Ok?
    requires var cur := Extend(fetch, decode, acc, Ok(done)).value;
             sub == Extend(fetch, decode, Analysis(cur.structure + [prefix + Connector(last) + e.name], cur.contents),
                           Walk(e.listing, JoinPath(path, e.name), prefix + Extension(last)))
    ensures var v := Visit(e, last, path, prefix);
            && (sub.Err? <==> v.Err?)
            && (sub.Err? ==> sub.error == v.error)
            && (sub.Ok? ==> Ok(sub.value) == Extend(fetch, decode, acc, Ok(Output(done.lines + v.value.lines, done.files + v.value.files))))
  {
    var v := Visit(e, last, path, prefix);
    if v.Ok? {
      var cur := Extend(fetch, decode, acc, Ok(done)).value;
      var line := prefix + Connector(last) + e.name;
      var w := Walk(e.listing, JoinPath(path, e.name), prefix + Extension(last)).value;
      ExtendStep(fetch, decode, acc, done, v.value);
      assert cur.structure + [line] + w.lines == cur.structure + v.value.lines;
      assert [] + w.files == w.files;
    }
  }

  /** A file entry: its line, then its contents assigned under its full path. */
  lemma FileStep(fetch: string -> Reply, decode: string -> Option<string>, acc: Analysis, done: Output,
                 e: Entry, last: bool, path: string, prefix: string)
    requires !IsDir(e) && Extend(fetch, decode, acc, Ok(done)).Ok?
    ensures var cur := Extend(fetch, decode, acc, Ok(done)).value;
            var v := Visit(e, last, path, prefix);
            && v.Ok?
            && Extend(fetch, decode, acc, Ok(Output(done.lines + v.value.lines, done.files + v.value.files)))
               == Ok(Analysis(cur.structure + [prefix + Connector(last) + e.name],
                              Put(cur.contents, JoinPath(path, e.name), Recorded(FileContent(fetch, decode, e.url)))))
  {
    var cur := Extend(fetch, decode, acc, Ok(done)).value;
    var f := FileRef(JoinPath(path, e.name), e.url);
    var p := (f.path, Recorded(FileContent(fetch, decode, e.url)));
    var v := Output([prefix + Connector(last) + e.name], [f]);
    assert Visit(e, last, path, prefix) == Ok(v);
    ExtendStep(fetch, decode, acc, done, v);
    assert Resolved(fetch, decode, [f]) == [p] by {
      assert [f][1..] == [];
    }
    assert PutAll(cur.contents, [p]) == Put(cur.contents, p.0, p.1) by {
      assert [p][1..] == [];
    }
  }

  /** The loop of `process_path` after `idx` entries: `done` is the output of
      those entries, `cur` the accumulators after them, and the walk of the
      whole listing is `done` followed by the walk of the remaining entries. */
  ghost predicate Progress(fetch: string -> Reply, decode: string -> Option<string>, l: Listing, items: seq<Entry>,
                           idx: nat, path: string, prefix: string, acc: Analysis, done: Output, cur: Analysis)
  {
    && l.Listed? && items == SortEntries(l.entries) && idx <= |items|
    && Walk(l, path, prefix) == Prepend(done.lines, done.files, WalkFrom(l, items, idx, path, prefix))
    && Ok(cur) == Extend(fetch, decode, acc, Ok(done))
  }

  /** `done` followed by the output of entry `idx`. */
  ghost function Next(l: Listing, items: seq<Entry>, idx: nat, path: string, prefix: string, done: Output): Output
    requires idx < |items|
  {
    match Visit(items[idx], idx == |items| - 1, path, prefix)
    case Err(_) => done
    case Ok(v) => Output(done.lines + v.lines, done.files + v.files)
  }

  lemma DirAdvance(fetch: string -> Reply, decode: string -> Option<string>, l: Listing, items: seq<Entry>, idx: nat,
                   path: string, prefix: string, acc: Analysis, done: Output, cur: Analysis, sub: Result<Analysis>)
    requires Progress(fetch, decode, l, items, idx, path, prefix, acc, done, cur) && idx < |items|
    requires var e := items[idx];
             var last := idx == |items| - 1;
             && IsDir(e)
             && sub == Extend(fetch, decode, Analysis(cur.structure + [prefix + Connector(last) + e.name], cur.contents),
                              Walk(e.listing, JoinPath(path, e.name), prefix + Extension(last)))
    ensures sub.Err? ==> Extend(fetch, decode, acc, Walk(l, path, prefix)) == Err(sub.error)
    ensures sub.Ok? ==> Progress(fetch, decode, l, items, idx + 1, path, prefix, acc, Next(l, items, idx, path, prefix, done), sub.value)
  {
    WalkStep(l, items, idx, path, prefix, done);
    DirStep(fetch, decode, acc, done, items[idx], idx == |items| - 1, path, prefix, sub);
  }

  lemma FileAdvance(fetch: string -> Reply, decode: string -> Option<string>, l: Listing, items: seq<Entry>, idx: nat,
                    path: string, prefix: string, acc: Analysis, done: Output, cur: Analysis)
    requires Progress(fetch, decode, l, items, idx, path, prefix, acc, done, cur) && idx < |items| && !IsDir(items[idx])
    ensures var e := items[idx];
            var last := idx == |items| - 1;
            var next := Analysis(cur.structure + [prefix + Connector(last) + e.name],
                                 Put(cur.contents, JoinPath(path, e.name), Recorded(FileContent(fetch, decode, e.url))));
            Progress(fetch, decode, l, items, idx + 1, path, prefix, acc, Next(l, items, idx, path, prefix, done), next)
  {
    WalkStep(l, items, idx, path, prefix, done);
    FileStep(fetch, decode, acc, done, items[idx], idx == |items| - 1, path, prefix);
  }

  /** The file references of a walk name distinct full paths. */
  predicate DistinctPaths(fs: seq<FileRef>) {
    fs != [] ==> fs[0].path !in Paths(fs[1..]) && DistinctPaths(fs[1..])
  }

  lemma {:induction false} PathsHas(fs: seq<FileRef>, i: nat)
    requires i < |fs|
    ensures fs[i].path in Paths(fs)
  {
    if i > 0 {
      PathsHas(fs[1..], i - 1);
    }
  }

  /** With distinct paths the entries for the files are themselves distinct. */
  lemma {:induction false} ResolvedDistinct(fetch: string -> Reply, decode: string -> Option<string>, fs: seq<FileRef>)
    requires DistinctPaths(fs)
    ensures DistinctKeys(Resolved(fetch, decode, fs))
  {
    if fs != [] {
      ResolvedDistinct(fetch, decode, fs[1..]);
      ResolvedKeys(fetch, decode, fs[1..]);
      assert Resolved(fetch, decode, fs)[1..] == Resolved(fetch, decode, fs[1..]);
    }
  }

  /** With distinct paths each file's path looks up what reading it yields. */
  lemma {:induction false} ResolvedGet(fetch: string -> Reply, decode: string -> Option<string>, fs: seq<FileRef>, i: nat)
    requires DistinctPaths(fs) && i < |fs|
    ensures Get(Resolved(fetch, decode, fs), fs[i].path) == Some(Recorded(FileContent(fetch, decode, fs[i].url)))
  {
    var d := Resolved(fetch, decode, fs);
    assert d[1..] == Resolved(fetch, decode, fs[1..]);
    if i > 0 {
      assert fs[1..][i - 1] == fs[i];
      PathsHas(fs[1..], i - 1);
      ResolvedGet(fetch, decode, fs[1..], i - 1);
    }
  }

  /** `analyze_repo` succeeds exactly when every directory can be listed; then
      it has one structure line per entry of the tree and one contents entry
      per file path, each path once. */
  lemma AnalysisFacts(fetch: string -> Reply, decode: string -> Option<string>, root: Listing)
    ensures var r := Extend(fetch, decode, Analysis([], []), Walk(root, "", ""));
            && (r.Ok? <==> !Broken(root))
            && (r.Ok? ==> && |r.value.structure| == Count(root)
                          && Keys(r.value.contents) == FilePaths(root, "")
                          && DistinctKeys(r.value.contents))
  {
    WalkFacts(root, "", "");
    match Walk(root, "", "") {
      case Err(_) =>
      case Ok(o) =>
        PutAllKeys([], Resolved(fetch, decode, o.files));
        ResolvedKeys(fetch, decode, o.files);
        assert [] + o.lines == o.lines;
    }
  }

  /** When the walk names each file once, the contents are the files in the
      order they were visited, each with what reading it yields. */
  lemma AnalysisContents(fetch: string -> Reply, decode: string -> Option<string>, root: Listing)
    requires Walk(root, "", "").Ok? && DistinctPaths(Walk(root, "", "").value.files)
    ensures var fs := Walk(root, "", "").value.files;
            var contents := Extend(fetch, decode, Analysis([], []), Walk(root, "", "")).value.contents;
            && contents == Resolved(fetch, decode, fs)
            && forall i :: 0 <= i < |fs| ==> Get(contents, fs[i].path) == Some(Recorded(FileContent(fetch, decode, fs[i].url)))
  {
    var fs := Walk(root, "", "").value.files;
    ResolvedDistinct(fetch, decode, fs);
    PutAllFresh([], Resolved(fetch, decode, fs));
    assert [] + Resolved(fetch, decode, fs) == Resolved(fetch, decode, fs);
    forall i | 0 <= i < |fs|
      ensures Get(Resolved(fetch, decode, fs), fs[i].path) == Some(Recorded(FileContent(fetch, decode, fs[i].url)))
    {
      ResolvedGet(fetch, decode, fs, i);
    }
  }

  /** The content locators of a walk's files, in visiting order. */
  function Urls(fs: seq<FileRef>): seq<string> {
    if fs == [] then [] else [fs[0].url] + Urls(fs[1..])
  }

  lemma {:induction false} UrlsAppend(a: seq<FileRef>, b: seq<FileRef>)
    ensures Urls(a + b) == Urls(a) + Urls(b)
  {
    if a != [] {
      assert (a + b)[0] == a[0] && (a + b)[1..] == a[1..] + b;
      UrlsAppend(a[1..], b);
    } else {
      assert a + b == b;
    }
  }

  /** The requests made by reading the locators `us` in order through a cache
      that holds the locators `c`: a cached locator is not requested, and a
      requested one is cached once its reply arrives. */
  ghost function Requested(fetch: string -> Reply, c: set<string>, us: seq<string>): seq<string>
    decreases |us|
  {
    if us == [] then []
    else if us[0] in c then Requested(fetch, c, us[1..])
    else [us[0]] + Requested(fetch, if fetch(us[0]).Payload? then c + {us[0]} else c, us[1..])
  }

  /** The cached locators after reading the locators `us` in order. */
  ghost function Cached(fetch: string -> Reply, c: set<string>, us: seq<string>): set<string>
    decreases |us|
  {
    if us == [] then c
    else if us[0] in c then Cached(fetch, c, us[1..])
    else Cached(fetch, if fetch(us[0]).Payload? then c + {us[0]} else c, us[1..])
  }

  /** Reading the files `fs` took the cache keys from `c0` to `c1` and the
      request log from `r0` to `r1`. */
  ghost predicate Log(fetch: string -> Reply, c0: set<string>, r0: seq<string>, fs: seq<FileRef>, c1: set<string>, r1: seq<string>) {
    r1 == r0 + Requested(fetch, c0, Urls(fs)) && c1 == Cached(fetch, c0, Urls(fs))
  }

  /** The cache ends holding the locators it held and those read whose reply arrived. */
  lemma {:induction false} CachedKeys(fetch: string -> Reply, c: set<string>, us: seq<string>)
    ensures forall u :: u in Cached(fetch, c, us) <==> u in c || (u in us && fetch(u).Payload?)
    decreases |us|
  {
    if us != [] {
      var c' := if us[0] in c || !fetch(us[0]).Payload? then c else c + {us[0]};
      CachedKeys(fetch, c', us[1..]);
      assert us == [us[0]] + us[1..];
    }
  }

  /** How often reading `us` requests the locator `u`: never when it was
      cached; once when it occurs and its reply arrives, however often it
      occurs; and at every occurrence when its request fails. */
  lemma {:induction false} RequestCount(fetch: string -> Reply, c: set<string>, us: seq<string>, u: string)
    ensures u in c || u !in us ==> multiset(Requested(fetch, c, us))[u] == 0
    ensures u !in c && u in us && fetch(u).Payload? ==> multiset(Requested(fetch, c, us))[u] == 1
    ensures u !in c && fetch(u).RequestFailed? ==> multiset(Requested(fetch, c, us))[u] == multiset(us)[u]
    decreases |us|
  {
    if us != [] {
      var c' := if us[0] in c || !fetch(us[0]).Payload? then c else c + {us[0]};
      RequestCount(fetch, c', us[1..], u);
      assert us == [us[0]] + us[1..];
      assert multiset(us)[u] == multiset(us[1..])[u] + if us[0] == u then 1 else 0;
      if us[0] !in c {
        var rest := Requested(fetch, c', us[1..]);
        assert multiset([us[0]] + rest)[u] == multiset(rest)[u] + if us[0] == u then 1 else 0;
      }
    }
  }

  /** Over a whole run: a locator that was not cached, occurs among the files
      read (once or more) and whose reply arrives is requested exactly once
      and ends up cached. */
  lemma RunRequestsOnce(fetch: string -> Reply, c0: set<string>, r0: seq<string>, fs: seq<FileRef>,
                        c1: set<string>, r1: seq<string>, u: string)
    requires Log(fetch, c0, r0, fs, c1, r1)
    requires u !in c0 && u in Urls(fs) && fetch(u).Payload?
    ensures multiset(r1)[u] == multiset(r0)[u] + 1
    ensures u in c1
  {
    RequestCount(fetch, c0, Urls(fs), u);
    CachedKeys(fetch, c0, Urls(fs));
  }

  lemma {:induction false} RequestedAppend(fetch: string -> Reply, c: set<string>, a: seq<string>, b: seq<string>)
    ensures Requested(fetch, c, a + b) == Requested(fetch, c, a) + Requested(fetch, Cached(fetch, c, a), b)
    ensures Cached(fetch, c, a + b) == Cached(fetch, Cached(fetch, c, a), b)
    decreases |a|
  {
    if a == [] {
      assert a + b == b;
    } else {
      assert (a + b)[0] == a[0] && (a + b)[1..] == a[1..] + b;
      var c' := if a[0] in c || !fetch(a[0]).Payload? then c else c + {a[0]};
      RequestedAppend(fetch, c', a[1..], b);
    }
  }

  lemma LogNone(fetch: string -> Reply, c: set<string>, r: seq<string>)
    ensures Log(fetch, c, r, [], c, r)
  {
    assert r + [] == r;
  }

  /** Reading two runs of files one after the other. */
  lemma LogChain(fetch: string -> Reply, c0: set<string>, r0: seq<string>, a: seq<FileRef>, c1: set<string>, r1: seq<string>,
                 b: seq<FileRef>, c2: set<string>, r2: seq<string>)
    requires Log(fetch, c0, r0, a, c1, r1) && Log(fetch, c1, r1, b, c2, r2)
    ensures Log(fetch, c0, r0, a + b, c2, r2)
  {
    UrlsAppend(a, b);
    RequestedAppend(fetch, c0, Urls(a), Urls(b));
    assert r0 + Requested(fetch, c0, Urls(a)) + Requested(fetch, c1, Urls(b))
        == r0 + (Requested(fetch, c0, Urls(a)) + Requested(fetch, c1, Urls(b)));
  }

  /** Reading one file: a cached locator changes nothing; otherwise it is
      requested, and cached when its reply arrives. */
  lemma LogRead(fetch: string -> Reply, c0: set<string>, r0: seq<string>, f: FileRef, c1: set<string>, r1: seq<string>)
    requires f.url in c0 ==> c1 == c0 && r1 == r0
    requires f.url !in c0 ==> r1 == r0 + [f.url] && c1 == if fetch(f.url).Payload? then c0 + {f.url} else c0
    ensures Log(fetch, c0, r0, [f], c1, r1)
  {
    assert [f][1..] == [];
    assert Urls([f]) == [f.url];
    assert r0 + [] == r0;
  }

  /** `GitHubRepoAnalyzer(token, repo_url)`: the locator is parsed first, and
      one that no pattern accepts raises; otherwise the analyzer starts with an
      empty cache. */
  method Open(url: string, fetch: string -> Reply, decode: string -> Option<string>, root: Listing)
    returns (r: Result<GitHubRepoAnalyzer>)
    ensures r.Err? ==> r.error == InvalidUrlMessage && forall k :: 0 <= k < |Patterns| ==> Found(url, k).None?
    ensures r.Ok? ==> && fresh(r.value) && r.value.Valid()
                      && r.value.cache == map[] && r.value.requests == []
                      && r.value.fetch == fetch && r.value.decode == decode && r.value.root == root
                      && exists k :: 0 <= k < |Patterns| && Found(url, k) == Some(Identity(r.value.owner, r.value.repo))
                                     && forall k' :: 0 <= k' < k ==> Found(url, k').None?
  {
    var id := ParseGitHubUrl(url);
    if id.Err? {
      return Err(id.error);
    }
    var a := new GitHubRepoAnalyzer(id.value, fetch, decode, root);
    return Ok(a);
  }

  class GitHubRepoAnalyzer {
    const owner: string
    const repo: string
    /** The reply to a request for a content locator. */
    const fetch: string -> Reply
    /** Base64 decoding followed by UTF-8 decoding. */
    const decode: string -> Option<string>
    /** The listing of the repository's top directory, and below it of every subdirectory. */
    const root: Listing
    /** `content_cache`. */
    var cache: map<string, string>
    /** The content locators requested so far, in order. */
    var requests: seq<string>

    /** Every cached value is what its locator reads as, every locator whose
        reply arrived is cached, and so none is requested twice. */
    ghost predicate Valid()
      reads this
    {
      && (forall u :: u in cache ==> FileContent(fetch, decode, u) == Ok(cache[u]))
      && (forall i :: 0 <= i < |requests| && fetch(requests[i]).Payload? ==> requests[i] in cache)
      && (forall i, j :: 0 <= i < j < |requests| && requests[i] == requests[j] ==> fetch(requests[i]).RequestFailed?)
    }

    /** `__init__` once the locator has been parsed: an empty cache. */
    constructor (id: Identity, fetch: string -> Reply, decode: string -> Option<string>, root: Listing)
      ensures owner == id.owner && repo == id.repo
      ensures this.fetch == fetch && this.decode == decode && this.root == root
      ensures cache == map[] && requests == []
      ensures Valid()
    {
      owner := id.owner;
      repo := id.repo;
      this.fetch := fetch;
      this.decode := decode;
      this.root := root;
      cache := map[];
      requests := [];
    }

    /** `get_file_content`: a cached locator is answered from the cache with
        no request; otherwise the locator is requested, and the text of a
        reply that arrived is cached before it is returned. A failed request
        raises, which is the `Err` result, and caches nothing. */
    method GetFileContent(url: string) returns (r: Result<string>)
      requires Valid()
      modifies this
      ensures Valid()
      ensures r == FileContent(fetch, decode, url)
      ensures url in old(cache) ==> cache == old(cache) && requests == old(requests)
      ensures url !in old(cache) ==> requests == old(requests) + [url]
      ensures cache == if r.Ok? then old(cache)[url := r.value] else old(cache)
    {
      if url in cache {
        return Ok(cache[url]);
      }
      requests := requests + [url];
      var reply := fetch(url);
      match reply
      case RequestFailed(m) =>
        return Err(m);
      case Payload(content) =>
        if content.None? {
          cache := cache[url := NonTextMessage];
          return Ok(cache[url]);
        }
        var text := decode(content.value);
        var decoded := if text.Some? then text.value else DecodeErrorMessage;
        cache := cache[url := decoded];
        return Ok(decoded);
    }

    /** `process_path(path, prefix)` over the listing `l` of `path`, with the
        structure lines and contents gathered so far in `acc`: the entries in
        sorted order, each one's line, then a directory's walk or a file's
        contents (its text, or the error its read raised). A listing that
        fails raises and aborts. The cache and the request log only grow. */
    method ProcessPath(l: Listing, path: string, prefix: string, acc: Analysis) returns (r: Result<Analysis>)
      requires Valid()
      modifies this
      ensures Valid()
      ensures r == Extend(fetch, decode, acc, Walk(l, path, prefix))
      ensures r.Ok? ==> Log(fetch, old(cache).Keys, old(requests), Walk(l, path, prefix).value.files, cache.Keys, requests)
      ensures old(requests) <= requests
      ensures forall u :: u in old(cache) ==> u in cache
      decreases l, 1
    {
      match l
      case Failed(m) =>
        return Err(m);
      case Listed(es) =>
        var items := SortEntries(es);
        var count := |items|;
        var cur := acc;
        ghost var done := Output([], []);
        var idx := 0;
        LoopEntry(fetch, decode, l, path, prefix, acc);
        LogNone(fetch, cache.Keys, requests);
        while idx < count
          invariant Valid()
          invariant count == |items| && Progress(fetch, decode, l, items, idx, path, prefix, acc, done, cur)
          invariant Log(fetch, old(cache).Keys, old(requests), done.files, cache.Keys, requests)
          invariant old(requests) <= requests
          invariant forall u :: u in old(cache) ==> u in cache
        {
          ghost var keys, log := cache.Keys, requests;
          var next := ProcessEntry(l, items, idx, path, prefix, acc, done, cur);
          if next.Err? {
            return Err(next.error);
          }
          LogChain(fetch, old(cache).Keys, old(requests), done.files, keys, log,
                   Visit(items[idx], idx == |items| - 1, path, prefix).value.files, cache.Keys, requests);
          cur := next.value;
          done := Next(l, items, idx, path, prefix, done);
          idx := idx + 1;
        }
        LoopExit(fetch, decode, l, items, path, prefix, acc, done);
        return Ok(cur);
    }

    /** One turn of the loop of `process_path`: the line of entry `idx`, then
        the walk of a directory or the contents of a file. */
    method ProcessEntry(l: Listing, items: seq<Entry>, idx: nat, path: string, prefix: string,
                        ghost acc: Analysis, ghost done: Output, cur: Analysis) returns (r: Result<Analysis>)
      requires Valid() && idx < |items| && Progress(fetch, decode, l, items, idx, path, prefix, acc, done, cur)
      modifies this
      ensures Valid()
      ensures r.Err? ==> Extend(fetch, decode, acc, Walk(l, path, prefix)) == Err(r.error)
      ensures r.Ok? ==> Progress(fetch, decode, l, items, idx + 1, path, prefix, acc, Next(l, items, idx, path, prefix, done), r.value)
      ensures r.Ok? ==> var v := Visit(items[idx], idx == |items| - 1, path, prefix);
                        v.Ok? && Log(fetch, old(cache).Keys, old(requests), v.value.files, cache.Keys, requests)
      ensures old(requests) <= requests
      ensures forall u :: u in old(cache) ==> u in cache
      decreases l, 0
    {
      var item := items[idx];
      assert item in multiset(l.entries) by { SortEntriesPermutation(l.entries); }
      var last := idx == |items| - 1;
      var fullPath := JoinPath(path, item.name);
      var line := prefix + Connector(last) + item.name;
      if IsDir(item) {
        r := ProcessPath(item.listing, fullPath, prefix + Extension(last), Analysis(cur.structure + [line], cur.contents));
        DirAdvance(fetch, decode, l, items, idx, path, prefix, acc, done, cur, r);
        if r.Ok? {
          assert [] + Walk(item.listing, fullPath, prefix + Extension(last)).value.files
              == Walk(item.listing, fullPath, prefix + Extension(last)).value.files;
        }
      } else {
        var c := GetFileContent(item.url);
        FileAdvance(fetch, decode, l, items, idx, path, prefix, acc, done, cur);
        LogRead(fetch, old(cache).Keys, old(requests), FileRef(fullPath, item.url), cache.Keys, requests);
        r := Ok(Analysis(cur.structure + [line], Put(cur.contents, fullPath, Recorded(c))));
      }
    }

    /** `analyze_repo`: the walk from the top directory with empty accumulators. */
    method AnalyzeRepo() returns (r: Result<Analysis>)
      requires Valid()
      modifies this
      ensures Valid()
      ensures r == Extend(fetch, decode, Analysis([], []), Walk(root, "", ""))
      ensures r.Ok? ==> Log(fetch, old(cache).Keys, old(requests), Walk(root, "", "").value.files, cache.Keys, requests)
    {
      r := ProcessPath(root, "", "", Analysis([], []));
    }
  }
}
