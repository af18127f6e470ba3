/** What `analyze_repo` / `process_path` produce, as pure functions of the
    remote tree: the structure lines and, in visiting order, the full path
    and content locator of every file. The analyzer's method is proved
    against `Walk`; the lemmas here state what `Walk` promises, against
    reference definitions over the listings as the remote returns them
    (unsorted). */
module TreeWalk {
  import opened Wrappers
  import opened Remote
  import opened EntryOrder

  const Tee: string := "├── "
  const Elbow: string := "└── "
  const Pipe: string := "│   "
  const Blank: string := "    "

  /** The connector before an entry's name: `└── ` for the last sibling. */
  function Connector(last: bool): string { if last then Elbow else Tee }

  /** What a directory adds to its children's prefix. */
  function Extension(last: bool): string { if last then Blank else Pipe }

  datatype FileRef = FileRef(path: string, url: string)

  datatype Output = Output(lines: seq<string>, files: seq<FileRef>)

  /** Output produced before a (possibly failing) remainder of the walk. */
  function Prepend(lines: seq<string>, files: seq<FileRef>, r: Result<Output>): Result<Output> {
    match r
    case Err(m) => Err(m)
    case Ok(o) => Ok(Output(lines + o.lines, files + o.files))
  }

  /** `process_path(path, prefix)` over the listing `l` of `path`. */
  function Walk(l: Listing, path: string, prefix: string): Result<Output>
    decreases l, 1
  {
    match l
    case Failed(m) => Err(m)
    case Listed(es) => WalkFrom(l, SortEntries(es), 0, path, prefix)
  }

  /** The loop of `process_path` from the sorted entry at index `i` on. */
  function WalkFrom(l: Listing, items: seq<Entry>, i: nat, path: string, prefix: string): Result<Output>
    requires l.Listed? && items == SortEntries(l.entries) && i <= |items|
    decreases l, 0, |items| - i
  {
    if i == |items| then Ok(Output([], []))
    else
      assert items[i] in multiset(l.entries) by { SortEntriesPermutation(l.entries); }
      Then(Visit(items[i], i == |items| - 1, path, prefix), WalkFrom(l, items, i + 1, path, prefix))
  }

  /** One iteration of the loop: the entry's line, then for a directory its
      subtree, for a file its record. */
  function Visit(e: Entry, last: bool, path: string, prefix: string): Result<Output>
    decreases e, 0
  {
    var line := prefix + Connector(last) + e.name;
    var full := JoinPath(path, e.name);
    if IsDir(e) then Prepend([line], [], Walk(e.listing, full, prefix + Extension(last)))
    else Ok(Output([line], [FileRef(full, e.url)]))
  }

  /** A first part of the walk followed by the rest, unless the first part fails. */
  function Then(first: Result<Output>, rest: Result<Output>): Result<Output> {
    match first
    case Err(m) => Err(m)
    case Ok(o) => Prepend(o.lines, o.files, rest)
  }

  // Reference definitions over the listings in the order the remote returns them.

  /** The number of entries in the tree: what listing every directory yields. */
  function Count(l: Listing): nat
    decreases l
  {
    match l
    case Failed(_) => 0
    case Listed(es) => CountSeq(es)
  }

  function CountSeq(es: seq<Entry>): nat
    decreases es
  {
    if es == [] then 0 else Size(es[0]) + CountSeq(es[1..])
  }

  /** An entry and, for a directory, everything below it. */
  function Size(e: Entry): nat
    decreases e
  {
    1 + if IsDir(e) then Count(e.listing) else 0
  }

  /** Some directory reached from `l` (or `l` itself) cannot be listed. */
  predicate Broken(l: Listing)
    decreases l
  {
    match l
    case Failed(_) => true
    case Listed(es) => BrokenSeq(es)
  }

  predicate BrokenSeq(es: seq<Entry>)
    decreases es
  {
    es != [] && ((IsDir(es[0]) && Broken(es[0].listing)) || BrokenSeq(es[1..]))
  }

  /** The full paths of the non-directory entries below `path`. */
  function FilePaths(l: Listing, path: string): set<string>
    decreases l
  {
    match l
    case Failed(_) => {}
    case Listed(es) => FilePathsSeq(es, path)
  }

  function FilePathsSeq(es: seq<Entry>, path: string): set<string>
    decreases es
  {
    if es == [] then {} else EntryPaths(es[0], path) + FilePathsSeq(es[1..], path)
  }

  function EntryPaths(e: Entry, path: string): set<string>
    decreases e
  {
    if IsDir(e) then FilePaths(e.listing, JoinPath(path, e.name)) else {JoinPath(path, e.name)}
  }

  function Paths(fs: seq<FileRef>): set<string> {
    if fs == [] then {} else {fs[0].path} + Paths(fs[1..])
  }

  lemma {:induction false} PathsAppend(a: seq<FileRef>, b: seq<FileRef>)
    ensures Paths(a + b) == Paths(a) + Paths(b)
  {
    if a == [] {
      assert a + b == b;
    } else {
      assert (a + b)[1..] == a[1..] + b;
      PathsAppend(a[1..], b);
    }
  }

  // The reference definitions do not depend on the order of a listing.

  lemma InsertUnfold(x: Entry, s: seq<Entry>)
    requires s != []
    ensures KeyLe(x, s[0]) ==> Insert(x, s)[0] == x && Insert(x, s)[1..] == s
    ensures !KeyLe(x, s[0]) ==> Insert(x, s)[0] == s[0] && Insert(x, s)[1..] == Insert(x, s[1..])
  {
  }

  lemma {:induction false} InsertInvariant(x: Entry, s: seq<Entry>, path: string)
    ensures CountSeq(Insert(x, s)) == Size(x) + CountSeq(s)
    ensures BrokenSeq(Insert(x, s)) == ((IsDir(x) && Broken(x.listing)) || BrokenSeq(s))
    ensures FilePathsSeq(Insert(x, s), path) == EntryPaths(x, path) + FilePathsSeq(s, path)
  {
    if s == [] {
    } else {
      InsertUnfold(x, s);
      if !KeyLe(x, s[0]) { InsertInvariant(x, s[1..], path); }
    }
  }

  lemma {:induction false} SortInvariant(es: seq<Entry>, path: string)
    ensures CountSeq(SortEntries(es)) == CountSeq(es)
    ensures BrokenSeq(SortEntries(es)) == BrokenSeq(es)
    ensures FilePathsSeq(SortEntries(es), path) == FilePathsSeq(es, path)
  {
    if es != [] {
      SortInvariant(es[1..], path);
      InsertInvariant(es[0], SortEntries(es[1..]), path);
    }
  }

  /** A walk fails exactly when some directory it reaches cannot be listed;
      otherwise it emits one line per entry of the tree and records exactly
      the full paths of the non-directory entries. File fetches play no part:
      a file that cannot be read never aborts the walk. */
  lemma {:induction false} WalkFacts(l: Listing, path: string, prefix: string)
    ensures Walk(l, path, prefix).Ok? <==> !Broken(l)
    ensures Walk(l, path, prefix).Ok? ==>
              && |Walk(l, path, prefix).value.lines| == Count(l)
              && Paths(Walk(l, path, prefix).value.files) == FilePaths(l, path)
    decreases l, 1
  {
    match l
    case Failed(_) =>
    case Listed(es) =>
      var items := SortEntries(es);
      WalkFromFacts(l, items, 0, path, prefix);
      SortInvariant(es, path);
      assert items[0..] == items;
  }

  lemma {:induction false} WalkFromFacts(l: Listing, items: seq<Entry>, i: nat, path: string, prefix: string)
    requires l.Listed? && items == SortEntries(l.entries) && i <= |items|
    ensures WalkFrom(l, items, i, path, prefix).Ok? <==> !BrokenSeq(items[i..])
    ensures WalkFrom(l, items, i, path, prefix).Ok? ==>
              && |WalkFrom(l, items, i, path, prefix).value.lines| == CountSeq(items[i..])
              && Paths(WalkFrom(l, items, i, path, prefix).value.files) == FilePathsSeq(items[i..], path)
    decreases l, 0, |items| - i
  {
    if i < |items| {
      var e := items[i];
      assert e in multiset(l.entries) by { SortEntriesPermutation(l.entries); }
      assert items[i..][0] == e && items[i..][1..] == items[i + 1..];
      VisitFacts(e, i == |items| - 1, path, prefix);
      WalkFromFacts(l, items, i + 1, path, prefix);
      var v := Visit(e, i == |items| - 1, path, prefix);
      var rest := WalkFrom(l, items, i + 1, path, prefix);
      if v.Ok? && rest.Ok? {
        PathsAppend(v.value.files, rest.value.files);
      }
    }
  }

  lemma {:induction false} VisitFacts(e: Entry, last: bool, path: string, prefix: string)
    ensures Visit(e, last, path, prefix).Ok? <==> !(IsDir(e) && Broken(e.listing))
    ensures Visit(e, last, path, prefix).Ok? ==>
              && |Visit(e, last, path, prefix).value.lines| == Size(e)
              && Paths(Visit(e, last, path, prefix).value.files) == EntryPaths(e, path)
    decreases e, 0
  {
    if IsDir(e) {
      var sub := Walk(e.listing, JoinPath(path, e.name), prefix + Extension(last));
      WalkFacts(e.listing, JoinPath(path, e.name), prefix + Extension(last));
      if sub.Ok? { assert [] + sub.value.files == sub.value.files; }
    }
  }

  lemma {:induction false} CountSeqSnoc(es: seq<Entry>, i: nat)
    requires i < |es|
    ensures CountSeq(es[..i + 1]) == CountSeq(es[..i]) + Size(es[i])
  {
    if i == 0 {
      assert es[..1][1..] == [];
    } else {
      assert es[..i + 1][1..] == es[1..][..i];
      assert es[..i][1..] == es[1..][..i - 1];
      CountSeqSnoc(es[1..], i - 1);
    }
  }

  /** A successful loop from index `j` is entry `j`'s output followed by the rest. */
  lemma WalkFromStep(l: Listing, items: seq<Entry>, j: nat, path: string, prefix: string)
    requires l.Listed? && items == SortEntries(l.entries) && j < |items|
    requires WalkFrom(l, items, j, path, prefix).Ok?
    ensures var o := WalkFrom(l, items, j, path, prefix).value;
            var v := Visit(items[j], j == |items| - 1, path, prefix);
            var rest := WalkFrom(l, items, j + 1, path, prefix);
            && v.Ok? && rest.Ok? && |v.value.lines| == Size(items[j])
            && o.lines == v.value.lines + rest.value.lines
            && o.files == v.value.files + rest.value.files
  {
    VisitFacts(items[j], j == |items| - 1, path, prefix);
  }

  lemma CountSeqFront(es: seq<Entry>, j: nat, i: nat)
    requires j < i <= |es|
    ensures CountSeq(es[j..i]) == Size(es[j]) + CountSeq(es[j + 1..i])
  {
    assert es[j..i][1..] == es[j + 1..i];
  }

  /** The loop fails as soon as one step of it fails. */
  lemma RestOk(l: Listing, items: seq<Entry>, j: nat, path: string, prefix: string)
    requires l.Listed? && items == SortEntries(l.entries) && j < |items|
    requires WalkFrom(l, items, j, path, prefix).Ok?
    ensures WalkFrom(l, items, j + 1, path, prefix).Ok?
  {
  }

  /** `x` is the piece of `o` that starts at line `off`: its `n` lines
      sit there and its files are among `o`'s. */
  ghost predicate PieceAt(o: Output, off: int, x: Result<Output>, n: nat)
  {
    && x.Ok? && |x.value.lines| == n
    && 0 <= off && off + n <= |o.lines|
    && o.lines[off..off + n] == x.value.lines
    && (forall f :: f in x.value.files ==> f in o.files)
  }

  /** A piece of `rest` keeps its place, shifted, once `v` is put in front. */
  lemma Shift(o: Output, v: Output, rest: Output, off: int, x: Result<Output>, n: nat, at: int)
    requires o.lines == v.lines + rest.lines && o.files == v.files + rest.files
    requires PieceAt(rest, off, x, n) && at == |v.lines| + off
    ensures PieceAt(o, at, x, n)
  {
    assert o.lines[at..at + n] == rest.lines[off..off + n];
  }

  /** In the output of the loop from index `j`, entry `i`'s own output sits
      after the outputs of entries `j` to `i - 1`. */
  ghost predicate Placed(l: Listing, items: seq<Entry>, j: nat, i: nat, path: string, prefix: string)
    requires l.Listed? && items == SortEntries(l.entries) && j <= i < |items|
    requires WalkFrom(l, items, j, path, prefix).Ok?
  {
    PieceAt(WalkFrom(l, items, j, path, prefix).value, CountSeq(items[j..i]),
            Visit(items[i], i == |items| - 1, path, prefix), Size(items[i]))
  }

  lemma PlacedHere(l: Listing, items: seq<Entry>, j: nat, path: string, prefix: string)
    requires l.Listed? && items == SortEntries(l.entries) && j < |items|
    requires WalkFrom(l, items, j, path, prefix).Ok?
    ensures Placed(l, items, j, j, path, prefix)
  {
    var o := WalkFrom(l, items, j, path, prefix).value;
    var v := Visit(items[j], j == |items| - 1, path, prefix).value;
    WalkFromStep(l, items, j, path, prefix);
    assert items[j..j] == [];
    assert o.lines[0..Size(items[j])] == v.lines;
  }

  lemma PlacedNext(l: Listing, items: seq<Entry>, j: nat, i: nat, path: string, prefix: string)
    requires l.Listed? && items == SortEntries(l.entries) && j < i < |items|
    requires WalkFrom(l, items, j, path, prefix).Ok?
    requires WalkFrom(l, items, j + 1, path, prefix).Ok?
    requires Placed(l, items, j + 1, i, path, prefix)
    ensures Placed(l, items, j, i, path, prefix)
  {
    var o := WalkFrom(l, items, j, path, prefix).value;
    var e := items[j];
    var v := Visit(e, j == |items| - 1, path, prefix).value;
    var rest := WalkFrom(l, items, j + 1, path, prefix).value;
    assert o.lines == v.lines + rest.lines && o.files == v.files + rest.files && |v.lines| == Size(e) by {
      WalkFromStep(l, items, j, path, prefix);
    }
    CountSeqFront(items, j, i);
    Shift(o, v, rest, CountSeq(items[j + 1..i]), Visit(items[i], i == |items| - 1, path, prefix), Size(items[i]),
          CountSeq(items[j..i]));
  }

  lemma {:induction false} LayoutFrom(l: Listing, items: seq<Entry>, j: nat, i: nat, path: string, prefix: string)
    requires l.Listed? && items == SortEntries(l.entries) && j <= i < |items|
    requires WalkFrom(l, items, j, path, prefix).Ok?
    ensures Placed(l, items, j, i, path, prefix)
    decreases i - j
  {
    if i == j {
      PlacedHere(l, items, j, path, prefix);
    } else {
      RestOk(l, items, j, path, prefix);
      LayoutFrom(l, items, j + 1, i, path, prefix);
      PlacedNext(l, items, j, i, path, prefix);
    }
  }

  /** Entry `e`'s lines, drawn at line `off` of `o`: its own line with the
      connector for its position, then for a directory the lines of its
      subtree, drawn with the extended prefix; a file is recorded under its
      full path. */
  ghost predicate Drawn(o: Output, off: int, e: Entry, last: bool, path: string, prefix: string)
  {
    var sub := Walk(e.listing, JoinPath(path, e.name), prefix + Extension(last));
    && 0 <= off && off + Size(e) <= |o.lines|
    && o.lines[off] == prefix + Connector(last) + e.name
    && (IsDir(e) ==> sub.Ok? && o.lines[off + 1..off + Size(e)] == sub.value.lines)
    && (!IsDir(e) ==> FileRef(JoinPath(path, e.name), e.url) in o.files)
  }

  /** What one entry's piece of output looks like, wherever it sits. */
  lemma PieceShape(o: Output, off: int, e: Entry, last: bool, path: string, prefix: string)
    requires PieceAt(o, off, Visit(e, last, path, prefix), Size(e))
    ensures Drawn(o, off, e, last, path, prefix)
  {
    var v := Visit(e, last, path, prefix).value;
    assert o.lines[off] == o.lines[off..off + Size(e)][0];
    if IsDir(e) {
      assert o.lines[off + 1..off + Size(e)] == o.lines[off..off + Size(e)][1..];
    } else {
      assert v.files[0] in v.files;
    }
  }

  /** The sorted entry at index `i` of a listing that walks successfully has
      its piece of the walk's output after the pieces of all earlier siblings. */
  lemma Placement(l: Listing, path: string, prefix: string, i: nat)
    requires l.Listed? && Walk(l, path, prefix).Ok? && i < |SortEntries(l.entries)|
    ensures var items := SortEntries(l.entries);
            PieceAt(Walk(l, path, prefix).value, CountSeq(items[..i]),
                    Visit(items[i], i == |items| - 1, path, prefix), Size(items[i]))
  {
    var items := SortEntries(l.entries);
    assert items[0..i] == items[..i];
    LayoutFrom(l, items, 0, i, path, prefix);
  }

  /** The shape of one directory's lines: the sorted entry at index `i` is
      drawn, with `└── ` exactly when it is the last sibling, after the lines
      of all earlier siblings and their subtrees. */
  lemma Layout(l: Listing, path: string, prefix: string, i: nat)
    requires l.Listed? && Walk(l, path, prefix).Ok? && i < |SortEntries(l.entries)|
    ensures var items := SortEntries(l.entries);
            Drawn(Walk(l, path, prefix).value, CountSeq(items[..i]), items[i], i == |items| - 1, path, prefix)
  {
    var items := SortEntries(l.entries);
    Placement(l, path, prefix, i);
    PieceShape(Walk(l, path, prefix).value, CountSeq(items[..i]), items[i], i == |items| - 1, path, prefix);
  }

  /** The next sibling's line follows the whole subtree of entry `i`; the last
      sibling's subtree ends the output. */
  lemma LayoutNext(l: Listing, path: string, prefix: string, i: nat)
    requires l.Listed? && Walk(l, path, prefix).Ok? && i < |SortEntries(l.entries)|
    ensures var items := SortEntries(l.entries);
            var end := CountSeq(items[..i]) + Size(items[i]);
            && (i == |items| - 1 ==> end == |Walk(l, path, prefix).value.lines|)
            && (i < |items| - 1 ==> CountSeq(items[..i + 1]) == end)
  {
    var items := SortEntries(l.entries);
    CountSeqSnoc(items, i);
    WalkFacts(l, path, prefix);
    SortInvariant(l.entries, path);
    if i == |items| - 1 {
      assert items[..i + 1] == items;
    }
  }
}
