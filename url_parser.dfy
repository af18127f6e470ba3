/** The repository-locator parser of `GitHubRepoAnalyzer._parse_github_url`.

    Each of the two regular expressions is searched with Python's `re.search`:
    the leftmost start position wins, and at a start position the backtracking
    engine takes the first way of matching in greedy order. `MatchAt` is that
    first match written out by hand, `Accepts` is an independent, declarative
    reading of the pattern, and the lemmas tie the two together. */
module UrlParser {
  import opened Wrappers

  datatype Identity = Identity(owner: string, repo: string)

  /** The two patterns, in the order the parser tries them:
      HostPath is `github\.com[:/]([^/]+)/([^/\.]+)(?:\.git)?$`,
      WebPath  is `github\.com/([^/]+)/([^/]+)/?$`. */
  datatype Pattern = HostPath | WebPath

  const Patterns: seq<Pattern> := [HostPath, WebPath]

  const Host: string := "github.com"

  const InvalidUrlMessage: string :=
    "Invalid GitHub URL. Expected format: https://github.com/owner/repo or git@github.com:owner/repo.git"

  /** Python's `$` without MULTILINE: the end of the string, or just before a final newline. */
  predicate AtEnd(s: string, p: nat) {
    p == |s| || (p + 1 == |s| && s[p] == '\n')
  }

  predicate HostAt(s: string, i: nat) {
    i + |Host| <= |s| && s[i..i + |Host|] == Host
  }

  /** Whether `c` ends a greedy group: every group stops at `/`, and the
      repository group of HostPath also stops at `.`. */
  predicate Stops(c: char, dot: bool) { c == '/' || (dot && c == '.') }

  /** The first index at or after `from` holding a stop character, or `|s|`:
      where a greedy `[^/]+` (or `[^/\.]+` when `dot`) starting at `from` ends. */
  function RunEnd(s: string, from: nat, dot: bool): (k: nat)
    requires from <= |s|
    ensures from <= k <= |s|
    decreases |s| - from
  {
    if from == |s| || Stops(s[from], dot) then from else RunEnd(s, from + 1, dot)
  }

  predicate NoStops(t: string, dot: bool) {
    forall j :: 0 <= j < |t| ==> !Stops(t[j], dot)
  }

  lemma NoStopsCons(c: char, t: string, dot: bool)
    requires !Stops(c, dot) && NoStops(t, dot)
    ensures NoStops([c] + t, dot)
  {
    forall x | 0 <= x < |t| + 1 ensures !Stops(([c] + t)[x], dot) {
      if x > 0 { assert ([c] + t)[x] == t[x - 1]; }
    }
  }

  lemma NoStopsSnoc(t: string, c: char, dot: bool)
    requires NoStops(t, dot) && !Stops(c, dot)
    ensures NoStops(t + [c], dot)
  {
    forall x | 0 <= x < |t| + 1 ensures !Stops((t + [c])[x], dot) {
      if x < |t| { assert (t + [c])[x] == t[x]; }
    }
  }

  /** The run from `from` holds no stop character, and a stop (or the end) follows it. */
  lemma {:induction false} RunEndRun(s: string, from: nat, dot: bool)
    requires from <= |s|
    ensures NoStops(s[from..RunEnd(s, from, dot)], dot)
    ensures RunEnd(s, from, dot) < |s| ==> Stops(s[RunEnd(s, from, dot)], dot)
    decreases |s| - from
  {
    if from < |s| && !Stops(s[from], dot) {
      RunEndRun(s, from + 1, dot);
      var k := RunEnd(s, from, dot);
      assert s[from..k] == [s[from]] + s[from + 1..k];
      NoStopsCons(s[from], s[from + 1..k], dot);
    }
  }

  /** Conversely, a run free of stop characters ends where the next stop, or the end, is. */
  lemma {:induction false} RunEndThrough(s: string, from: nat, k: nat, dot: bool)
    requires from <= k <= |s| && NoStops(s[from..k], dot)
    requires k < |s| ==> Stops(s[k], dot)
    ensures RunEnd(s, from, dot) == k
    decreases k - from
  {
    if from < k {
      assert s[from] == s[from..k][0];
      assert s[from + 1..k] == s[from..k][1..];
      RunEndThrough(s, from + 1, k, dot);
    }
  }

  /** Owner group `([^/]+)`. */
  predicate OwnerOk(o: string) { |o| > 0 && NoStops(o, false) }

  /** Repository group: `([^/\.]+)` for HostPath, `([^/]+)` for WebPath. */
  predicate RepoOk(p: Pattern, r: string) { |r| > 0 && NoStops(r, p == HostPath) }

  /** `github.com` at `i`, followed by a separator the pattern allows. */
  predicate Lead(p: Pattern, s: string, i: nat) {
    && HostAt(s, i) && i + |Host| < |s|
    && (s[i + |Host|] == '/' || (p == HostPath && s[i + |Host|] == ':'))
  }

  predicate GitAt(s: string, k: nat) {
    k + 4 <= |s| && s[k] == '.' && s[k + 1] == 'g' && s[k + 2] == 'i' && s[k + 3] == 't'
  }

  /** What follows the repository group, tried greedily: `(?:\.git)?$` for
      HostPath, `/?$` for WebPath. The repository group never needs to give
      characters back: a shorter group would be followed by a character that
      neither the suffix nor `$` accepts. */
  predicate SuffixOk(p: Pattern, s: string, k: nat) {
    if p == HostPath then (GitAt(s, k) && AtEnd(s, k + 4)) || AtEnd(s, k)
    else (k < |s| && s[k] == '/' && AtEnd(s, k + 1)) || AtEnd(s, k)
  }

  function OwnerEnd(s: string, i: nat): nat
    requires i + |Host| < |s|
  {
    RunEnd(s, i + |Host| + 1, false)
  }

  /** The first match of pattern `p` anchored at start position `i`, in the
      order the backtracking engine tries the alternatives. */
  function MatchAt(p: Pattern, s: string, i: nat): Option<Identity>
    requires i <= |s|
  {
    if !Lead(p, s, i) then None
    else
      var j := OwnerEnd(s, i);
      if j == i + |Host| + 1 || j == |s| then None
      else
        var k := RunEnd(s, j + 1, p == HostPath);
        if k == j + 1 || !SuffixOk(p, s, k) then None
        else Some(Identity(s[i + |Host| + 1..j], s[j + 1..k]))
  }

  /** The groups of a match are nonempty and free of their stop characters. */
  lemma MatchAtGroups(p: Pattern, s: string, i: nat)
    requires i <= |s| && MatchAt(p, s, i).Some?
    ensures OwnerOk(MatchAt(p, s, i).value.owner) && RepoOk(p, MatchAt(p, s, i).value.repo)
  {
    var j := OwnerEnd(s, i);
    RunEndRun(s, i + |Host| + 1, false);
    RunEndRun(s, j + 1, p == HostPath);
  }

  /** The characters allowed between `github.com` and the owner. */
  function Separators(p: Pattern): seq<char> {
    if p == HostPath then [':', '/'] else ['/']
  }

  /** What may follow the repository group before the end of the string:
      the optional suffix, possibly followed by the newline `$` tolerates. */
  function Tails(p: Pattern): seq<string> {
    if p == HostPath then ["", ".git", "\n", ".git\n"] else ["", "/", "\n", "/\n"]
  }

  predicate Spells(s: string, i: nat, sep: char, id: Identity, tail: string)
    requires i <= |s|
  {
    s[i..] == Host + [sep] + id.owner + "/" + id.repo + tail
  }

  /** Declarative reading of pattern `p` matching `s` from position `i` to the end. */
  predicate Accepts(p: Pattern, s: string, i: nat, id: Identity)
    requires i <= |s|
  {
    && OwnerOk(id.owner) && RepoOk(p, id.repo)
    && exists a, b :: 0 <= a < |Separators(p)| && 0 <= b < |Tails(p)| &&
         Spells(s, i, Separators(p)[a], id, Tails(p)[b])
  }

  /** The leftmost start position at or after `from` where `p` matches, or
      `|s| + 1` when there is none. */
  function First(p: Pattern, s: string, from: nat): (i: nat)
    requires from <= |s| + 1
    ensures from <= i <= |s| + 1
    ensures i <= |s| ==> MatchAt(p, s, i).Some?
    ensures forall j :: from <= j < i ==> MatchAt(p, s, j).None?
    decreases |s| + 1 - from
  {
    if from > |s| || MatchAt(p, s, from).Some? then from else First(p, s, from + 1)
  }

  /** `re.search`: the match at the leftmost start position. */
  function Search(p: Pattern, s: string): Option<Identity> {
    var i := First(p, s, 0);
    if i <= |s| then MatchAt(p, s, i) else None
  }

  /** What searching for the `k`-th pattern finds in `url`. */
  function Found(url: string, k: nat): Option<Identity>
    requires k < |Patterns|
  {
    Search(Patterns[k], url)
  }

  /** `_parse_github_url`: try the patterns in order and return the groups of
      the first one that is found, or raise the invalid-URL error. */
  method ParseGitHubUrl(url: string) returns (r: Result<Identity>)
    ensures r.Ok? ==> exists k :: 0 <= k < |Patterns| && Found(url, k) == Some(r.value) &&
                                  forall k' :: 0 <= k' < k ==> Found(url, k').None?
    ensures r.Err? ==> r.error == InvalidUrlMessage &&
                       forall k :: 0 <= k < |Patterns| ==> Found(url, k).None?
  {
    var k := 0;
    while k < |Patterns|
      invariant 0 <= k <= |Patterns|
      invariant forall k' :: 0 <= k' < k ==> Found(url, k').None?
    {
      var m := Found(url, k);
      if m.Some? {
        return Ok(m.value);
      }
      k := k + 1;
    }
    return Err(InvalidUrlMessage);
  }

  /** Where the pieces of a spelled string lie in it. */
  predicate Pieces(s: string, i: nat, sep: char, id: Identity, tail: string) {
    var j := i + |Host| + 1 + |id.owner|;
    var k := j + 1 + |id.repo|;
    && k + |tail| == |s|
    && HostAt(s, i) && s[i + |Host|] == sep
    && s[i + |Host| + 1..j] == id.owner && s[j] == '/'
    && s[j + 1..k] == id.repo && s[k..] == tail
  }

  lemma SpelledPieces(s: string, i: nat, sep: char, id: Identity, tail: string)
    requires i <= |s| && Spells(s, i, sep, id, tail)
    ensures Pieces(s, i, sep, id, tail)
  {
    var w := Host + [sep] + id.owner + "/" + id.repo + tail;
    var j := i + |Host| + 1 + |id.owner|;
    var k := j + 1 + |id.repo|;
    assert s[i..] == w;
    assert s[i..i + |Host|] == w[..|Host|];
    assert s[i + |Host| + 1..j] == w[|Host| + 1..j - i];
    assert s[j + 1..k] == w[j + 1 - i..k - i];
    assert s[k..] == w[k - i..];
  }

  lemma PiecesSpelled(s: string, i: nat, sep: char, id: Identity, tail: string)
    requires Pieces(s, i, sep, id, tail)
    ensures i <= |s| && Spells(s, i, sep, id, tail)
  {
    var j := i + |Host| + 1 + |id.owner|;
    var k := j + 1 + |id.repo|;
    assert s[i..] == s[i..i + |Host|] + [s[i + |Host|]] + s[i + |Host| + 1..j] + [s[j]] + s[j + 1..k] + s[k..];
  }

  /** The rest of the string after a successful suffix is one of the tails. */
  lemma {:induction false} SuffixTail(p: Pattern, s: string, k: nat) returns (b: nat)
    requires k <= |s| && SuffixOk(p, s, k)
    ensures b < |Tails(p)| && s[k..] == Tails(p)[b]
  {
    if p == HostPath && GitAt(s, k) && AtEnd(s, k + 4) {
      b := if k + 4 == |s| then 1 else 3;
    } else if p == WebPath && k < |s| && s[k] == '/' && AtEnd(s, k + 1) {
      b := if k + 1 == |s| then 1 else 3;
    } else {
      b := if k == |s| then 0 else 2;
    }
  }

  /** Soundness: whatever `MatchAt` returns is a way the pattern matches. */
  lemma {:induction false} MatchSound(p: Pattern, s: string, i: nat)
    requires i <= |s| && MatchAt(p, s, i).Some?
    ensures Accepts(p, s, i, MatchAt(p, s, i).value)
  {
    var id := MatchAt(p, s, i).value;
    var sep := s[i + |Host|];
    var j := OwnerEnd(s, i);
    var k := RunEnd(s, j + 1, p == HostPath);
    var a := if p == HostPath && sep == '/' then 1 else 0;
    assert Separators(p)[a] == sep;
    var b := SuffixTail(p, s, k);
    MatchAtGroups(p, s, i);
    RunEndRun(s, i + |Host| + 1, false);
    assert Pieces(s, i, sep, id, Tails(p)[b]);
    PiecesSpelled(s, i, sep, id, Tails(p)[b]);
  }

  predicate EndsWithNewline(s: string) { |s| > 0 && s[|s| - 1] == '\n' }

  lemma MatchAtIs(p: Pattern, s: string, i: nat, j: nat, k: nat, m: Identity)
    requires i <= |s| && Lead(p, s, i)
    requires OwnerEnd(s, i) == j && i + |Host| + 1 < j < |s|
    requires RunEnd(s, j + 1, p == HostPath) == k && j + 1 < k && SuffixOk(p, s, k)
    requires m.owner == s[i + |Host| + 1..j] && m.repo == s[j + 1..k]
    ensures MatchAt(p, s, i) == Some(m)
  {
  }

  lemma OwnerGroup(s: string, i: nat, sep: char, id: Identity, tail: string)
    requires Pieces(s, i, sep, id, tail) && OwnerOk(id.owner)
    ensures i + |Host| < |s| && OwnerEnd(s, i) == i + |Host| + 1 + |id.owner|
  {
    RunEndThrough(s, i + |Host| + 1, i + |Host| + 1 + |id.owner|, false);
  }

  /** The optional suffix after the repository group. */
  function Suffix(p: Pattern): string { if p == HostPath then ".git" else "/" }

  lemma RepoRunAtEnd(p: Pattern, s: string, from: nat, k: nat)
    requires from <= k == |s| && NoStops(s[from..k], p == HostPath)
    ensures RunEnd(s, from, p == HostPath) == k && SuffixOk(p, s, k)
  {
    RunEndThrough(s, from, k, p == HostPath);
  }

  /** A lone final newline does not stop the group, which swallows it. */
  lemma RepoRunNewline(p: Pattern, s: string, from: nat, k: nat)
    requires from <= k && k + 1 == |s| && s[k] == '\n' && NoStops(s[from..k], p == HostPath)
    ensures RunEnd(s, from, p == HostPath) == k + 1 && SuffixOk(p, s, k + 1)
  {
    assert s[from..k + 1] == s[from..k] + [s[k]];
    NoStopsSnoc(s[from..k], s[k], p == HostPath);
    RunEndThrough(s, from, k + 1, p == HostPath);
  }

  lemma RepoRunSuffix(p: Pattern, s: string, from: nat, k: nat, tail: string)
    requires from <= k <= |s| && NoStops(s[from..k], p == HostPath) && s[k..] == tail
    requires tail == Suffix(p) || tail == Suffix(p) + "\n"
    ensures RunEnd(s, from, p == HostPath) == k && SuffixOk(p, s, k)
  {
    assert s[k] == tail[0];
    RunEndThrough(s, from, k, p == HostPath);
    if p == HostPath {
      assert s[k + 1] == tail[1] && s[k + 2] == tail[2] && s[k + 3] == tail[3];
    }
  }

  /** Where the greedy repository group ends: right after the given group,
      or one further when the given tail is a lone newline it swallows. */
  lemma RepoGroup(p: Pattern, s: string, i: nat, sep: char, id: Identity, tail: string, b: nat)
    requires b < |Tails(p)| && tail == Tails(p)[b]
    requires Pieces(s, i, sep, id, tail) && RepoOk(p, id.repo)
    ensures var k0 := i + |Host| + 2 + |id.owner| + |id.repo|;
            var k := if b == 2 then k0 + 1 else k0;
            RunEnd(s, k0 - |id.repo|, p == HostPath) == k && SuffixOk(p, s, k)
  {
    var from := i + |Host| + 2 + |id.owner|;
    var k0 := from + |id.repo|;
    assert s[from..k0] == id.repo && s[k0..] == tail;
    if b == 0 {
      RepoRunAtEnd(p, s, from, k0);
    } else if b == 2 {
      RepoRunNewline(p, s, from, k0);
    } else {
      RepoRunSuffix(p, s, from, k0, tail);
    }
  }

  /** Completeness for one given spelling of the match. */
  lemma MatchCompleteBy(p: Pattern, s: string, i: nat, id: Identity, sep: char, tail: string, b: nat)
    requires b < |Tails(p)| && tail == Tails(p)[b] && Pieces(s, i, sep, id, tail)
    requires OwnerOk(id.owner) && RepoOk(p, id.repo) && (sep == '/' || (p == HostPath && sep == ':'))
    ensures i <= |s| && MatchAt(p, s, i).Some?
    ensures MatchAt(p, s, i).value.owner == id.owner
    ensures id.repo <= MatchAt(p, s, i).value.repo
    ensures b < 2 ==> MatchAt(p, s, i) == Some(id)
  {
    OwnerGroup(s, i, sep, id, tail);
    RepoGroup(p, s, i, sep, id, tail, b);
    var j := i + |Host| + 1 + |id.owner|;
    var k0 := j + 1 + |id.repo|;
    var k := if b == 2 then k0 + 1 else k0;
    var m := Identity(id.owner, s[j + 1..k]);
    assert s[j + 1..k0] == id.repo;
    assert id.repo <= m.repo by {
      assert m.repo[..|id.repo|] == s[j + 1..k0];
    }
    assert b < 2 ==> m == id;
    assert Lead(p, s, i);
    MatchAtIs(p, s, i, j, k, m);
  }

  /** Completeness: whenever the pattern can match at `i`, `MatchAt` finds a
      match with the same owner whose repository group extends the given one
      (the group is greedy); without a trailing newline the match is unique. */
  lemma {:induction false} MatchComplete(p: Pattern, s: string, i: nat, id: Identity)
    requires i <= |s| && Accepts(p, s, i, id)
    ensures MatchAt(p, s, i).Some?
    ensures MatchAt(p, s, i).value.owner == id.owner
    ensures id.repo <= MatchAt(p, s, i).value.repo
    ensures !EndsWithNewline(s) ==> MatchAt(p, s, i) == Some(id)
  {
    var a, b :| 0 <= a < |Separators(p)| && 0 <= b < |Tails(p)| &&
                Spells(s, i, Separators(p)[a], id, Tails(p)[b]);
    var tail := Tails(p)[b];
    SpelledPieces(s, i, Separators(p)[a], id, tail);
    MatchCompleteBy(p, s, i, id, Separators(p)[a], tail, b);
    if b >= 2 {
      NewlineTail(p, b, s, i + |Host| + 2 + |id.owner| + |id.repo|);
    }
  }

  /** The last two tails end in the newline that `$` tolerates. */
  lemma NewlineTail(p: Pattern, b: nat, s: string, k: nat)
    requires 2 <= b < |Tails(p)| && k <= |s| && s[k..] == Tails(p)[b]
    ensures EndsWithNewline(s)
  {
    var tail := Tails(p)[b];
    assert tail[|tail| - 1] == '\n';
    assert s[|s| - 1] == tail[|tail| - 1];
  }

  /** The leftmost match is the one at the first start position that matches. */
  lemma SearchFinds(p: Pattern, s: string, i0: nat, id: Identity)
    requires i0 <= |s| && MatchAt(p, s, i0) == Some(id)
    requires forall i :: 0 <= i < i0 ==> MatchAt(p, s, i).None?
    ensures Search(p, s) == Some(id)
  {
  }

  /** Nothing is found exactly when no start position matches. */
  lemma SearchNone(p: Pattern, s: string)
    ensures Search(p, s).None? <==> forall i :: 0 <= i <= |s| ==> MatchAt(p, s, i).None?
  {
  }

  /** A string ending in `/` never matches the first pattern. */
  lemma {:induction false} SlashEndDefeatsHostPath(s: string)
    requires |s| > 0 && s[|s| - 1] == '/'
    ensures Search(HostPath, s).None?
  {
    forall i | 0 <= i <= |s| ensures MatchAt(HostPath, s, i).None? {
      SlashEndDefeatsHostPathAt(s, i);
    }
  }

  lemma SlashEndDefeatsHostPathAt(s: string, i: nat)
    requires |s| > 0 && s[|s| - 1] == '/' && i <= |s|
    ensures MatchAt(HostPath, s, i).None?
  {
    if Lead(HostPath, s, i) {
      var j := OwnerEnd(s, i);
      if i + |Host| + 1 < j < |s| {
        var k := RunEnd(s, j + 1, true);
        RunEndRun(s, j + 1, true);
        if j + 1 < k {
          assert !SuffixOk(HostPath, s, k);
        }
      }
    }
  }

  lemma NotHostAt(s: string, i: nat, t: nat)
    requires t < |Host| && i + t < |s| && s[i + t] != Host[t]
    ensures !HostAt(s, i)
  {
  }

  /** Without `github.com` anywhere, neither pattern is found, so the parser
      raises the invalid-URL error. */
  lemma NoHostNoMatch(s: string, k: nat)
    requires forall i :: 0 <= i <= |s| ==> !HostAt(s, i)
    requires k < |Patterns|
    ensures Found(s, k).None?
  {
  }

  /** No match can start inside a scheme prefix such as `https://` or `git@`. */
  lemma HostFreePrefix(s: string, scheme: string)
    requires scheme == "https://" || scheme == "git@"
    requires scheme <= s
    ensures forall i :: 0 <= i < |scheme| ==> !HostAt(s, i)
  {
    forall i | 0 <= i < |scheme| ensures !HostAt(s, i) {
      assert s[i] == scheme[i];
      if scheme[i] == 'g' { NotHostAt(s, i, 3); } else { NotHostAt(s, i, 0); }
    }
  }

  /** A locator written as a scheme, `github.com`, a separator, the owner,
      `/`, the repository and a tail has its pieces where `Pieces` says. */
  lemma Written(s: string, scheme: string, sep: char, id: Identity, tail: string)
    requires s == scheme + Host + [sep] + id.owner + "/" + id.repo + tail
    ensures scheme <= s && Pieces(s, |scheme|, sep, id, tail)
  {
    assert s[..|scheme|] == scheme;
    assert Spells(s, |scheme|, sep, id, tail) by {
      assert s[|scheme|..] == Host + [sep] + id.owner + "/" + id.repo + tail;
    }
    SpelledPieces(s, |scheme|, sep, id, tail);
  }

  /** A locator whose only candidate start is right after its scheme, and whose
      pieces the pattern accepts without a newline, is found with those pieces. */
  lemma FoundAfterScheme(p: Pattern, s: string, scheme: string, sep: char, id: Identity, tail: string, b: nat)
    requires scheme == "https://" || scheme == "git@"
    requires scheme <= s && Pieces(s, |scheme|, sep, id, tail)
    requires b < 2 && tail == Tails(p)[b]
    requires OwnerOk(id.owner) && RepoOk(p, id.repo) && (sep == '/' || (p == HostPath && sep == ':'))
    ensures Search(p, s) == Some(id)
  {
    MatchCompleteBy(p, s, |scheme|, id, sep, tail, b);
    HostFreePrefix(s, scheme);
    SearchFinds(p, s, |scheme|, id);
  }

  /** `https://github.com/o/r` is found by the first pattern. */
  lemma HttpsForm(o: string, r: string)
    requires OwnerOk(o) && RepoOk(HostPath, r)
    ensures Found("https://github.com/" + o + "/" + r, 0) == Some(Identity(o, r))
  {
    var s := "https://github.com/" + o + "/" + r;
    Written(s, "https://", '/', Identity(o, r), "");
    FoundAfterScheme(HostPath, s, "https://", '/', Identity(o, r), "", 0);
  }

  /** `git@github.com:o/r.git` is found by the first pattern. */
  lemma SshForm(o: string, r: string)
    requires OwnerOk(o) && RepoOk(HostPath, r)
    ensures Found("git@github.com:" + o + "/" + r + ".git", 0) == Some(Identity(o, r))
  {
    var s := "git@github.com:" + o + "/" + r + ".git";
    Written(s, "git@", ':', Identity(o, r), ".git");
    FoundAfterScheme(HostPath, s, "git@", ':', Identity(o, r), ".git", 1);
  }

  /** `https://github.com/o/r/` defeats the first pattern and is found by the second. */
  lemma TrailingSlashForm(o: string, r: string)
    requires OwnerOk(o) && RepoOk(WebPath, r)
    ensures Found("https://github.com/" + o + "/" + r + "/", 0).None?
    ensures Found("https://github.com/" + o + "/" + r + "/", 1) == Some(Identity(o, r))
  {
    var s := "https://github.com/" + o + "/" + r + "/";
    SlashEndDefeatsHostPath(s);
    Written(s, "https://", '/', Identity(o, r), "/");
    FoundAfterScheme(WebPath, s, "https://", '/', Identity(o, r), "/", 1);
  }

  /** After the owner group, a repository text whose first stop is a dot that
      does not begin a final `.git` leaves the first pattern without a match. */
  lemma DotDefeatsHostPath(s: string, j: nat, r1: string, r2: string)
    requires j < |s| && s[j + 1..] == r1 + "." + r2
    requires RepoOk(HostPath, r1) && r2 != "git" && r2 != "git\n"
    ensures var k := RunEnd(s, j + 1, true); j + 1 < k && !SuffixOk(HostPath, s, k)
  {
    var k := j + 1 + |r1|;
    assert s[j + 1..k] == s[j + 1..][..|r1|] == r1;
    assert s[k] == s[j + 1..][|r1|] == '.';
    RunEndThrough(s, j + 1, k, true);
    assert s[k..] == "." + r2;
  }

  lemma SpelledDotDefeatsHostPath(s: string, i: nat, id: Identity, r1: string, r2: string)
    requires Pieces(s, i, '/', id, "") && OwnerOk(id.owner)
    requires id.repo == r1 + "." + r2 && RepoOk(HostPath, r1) && r2 != "git" && r2 != "git\n"
    ensures i <= |s| && MatchAt(HostPath, s, i).None?
  {
    OwnerGroup(s, i, '/', id, "");
    var j := i + |Host| + 1 + |id.owner|;
    DotDefeatsHostPath(s, j, r1, r2);
  }

  /** When `github.com` occurs only at `i0` and the pattern fails there, it is not found. */
  lemma OnlyCandidate(p: Pattern, s: string, i0: nat)
    requires forall i :: 0 <= i <= |s| && HostAt(s, i) ==> i == i0
    requires i0 <= |s| && MatchAt(p, s, i0).None?
    ensures Search(p, s).None?
  {
    forall i | 0 <= i <= |s| ensures MatchAt(p, s, i).None? {
      if i != i0 { assert !HostAt(s, i); }
    }
  }

  /** A dot inside a name that `[^/]` accepts is still accepted there. */
  lemma DottedName(r1: string, r2: string)
    requires RepoOk(HostPath, r1) && NoStops(r2, false)
    ensures RepoOk(WebPath, r1 + "." + r2)
  {
    var r := r1 + "." + r2;
    forall t | 0 <= t < |r| ensures !Stops(r[t], false) {
      if t > |r1| { assert r[t] == r2[t - |r1| - 1]; }
    }
  }

  /** A repository name with a dot that is not a `.git` suffix defeats the
      first pattern, so the second one supplies the whole name: this is what
      the second pattern adds over the first. */
  lemma DottedRepoForm(s: string, o: string, r1: string, r2: string)
    requires s == "https://github.com/" + o + "/" + r1 + "." + r2
    requires OwnerOk(o) && RepoOk(HostPath, r1) && NoStops(r2, false)
    requires r2 != "git" && r2 != "git\n"
    requires forall i :: 0 <= i <= |s| && HostAt(s, i) ==> i == 8
    ensures Found(s, 0).None?
    ensures Found(s, 1) == Some(Identity(o, r1 + "." + r2))
  {
    var id := Identity(o, r1 + "." + r2);
    Written(s, "https://", '/', id, "");
    DottedName(r1, r2);
    FoundAfterScheme(WebPath, s, "https://", '/', id, "", 0);
    SpelledDotDefeatsHostPath(s, 8, id, r1, r2);
    OnlyCandidate(HostPath, s, 8);
  }
}
