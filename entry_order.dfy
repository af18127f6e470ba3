/** The order in which one directory's entries are processed:
    `sorted(items, key=lambda x: (x['type'] != 'dir', x['name']))`.
    Python compares the key tuples field by field (`False < True`, so
    directories come first) and strings by code point; `sorted` is stable. */
module EntryOrder {
  import opened Remote

  /** Python's `<=` on `str`: lexicographic by code point, a prefix first. */
  predicate LexLe(a: string, b: string)
    decreases |a|
  {
    if a == [] then true
    else if b == [] then false
    else if a[0] != b[0] then a[0] < b[0]
    else LexLe(a[1..], b[1..])
  }

  lemma {:induction false} LexLeReflexive(a: string)
    ensures LexLe(a, a)
    decreases |a|
  {
    if a != [] { LexLeReflexive(a[1..]); }
  }

  lemma {:induction false} LexLeTotal(a: string, b: string)
    ensures LexLe(a, b) || LexLe(b, a)
    decreases |a|
  {
    if a != [] && b != [] && a[0] == b[0] { LexLeTotal(a[1..], b[1..]); }
  }

  lemma {:induction false} LexLeAntisymmetric(a: string, b: string)
    requires LexLe(a, b) && LexLe(b, a)
    ensures a == b
    decreases |a|
  {
    if a != [] && b != [] {
      LexLeAntisymmetric(a[1..], b[1..]);
      assert a == [a[0]] + a[1..] && b == [b[0]] + b[1..];
    }
  }

  lemma {:induction false} LexLeTransitive(a: string, b: string, c: string)
    requires LexLe(a, b) && LexLe(b, c)
    ensures LexLe(a, c)
    decreases |a|
  {
    if a != [] && b != [] && c != [] && a[0] == b[0] && b[0] == c[0] {
      LexLeTransitive(a[1..], b[1..], c[1..]);
    }
  }

  /** The sort key `(type != 'dir', name)`. */
  function Key(e: Entry): (bool, string) { (!IsDir(e), e.name) }

  /** Python's `<=` on the key tuples. */
  predicate KeyLe(x: Entry, y: Entry) {
    if IsDir(x) != IsDir(y) then IsDir(x) else LexLe(x.name, y.name)
  }

  lemma KeyLeTotal(x: Entry, y: Entry)
    ensures KeyLe(x, y) || KeyLe(y, x)
    ensures Key(x) == Key(y) ==> KeyLe(x, y)
  {
    LexLeTotal(x.name, y.name);
    LexLeReflexive(x.name);
  }

  lemma KeyLeTransitive(x: Entry, y: Entry, z: Entry)
    requires KeyLe(x, y) && KeyLe(y, z)
    ensures KeyLe(x, z)
  {
    if IsDir(x) == IsDir(y) == IsDir(z) { LexLeTransitive(x.name, y.name, z.name); }
  }

  lemma KeyLeAntisymmetric(x: Entry, y: Entry)
    requires KeyLe(x, y) && KeyLe(y, x)
    ensures Key(x) == Key(y)
  {
    LexLeAntisymmetric(x.name, y.name);
  }

  predicate Sorted(s: seq<Entry>) {
    forall i, j :: 0 <= i < j < |s| ==> KeyLe(s[i], s[j])
  }

  /** Places `x` before the first element whose key is not smaller. */
  function Insert(x: Entry, s: seq<Entry>): seq<Entry> {
    if s == [] then [x]
    else if KeyLe(x, s[0]) then [x] + s
    else [s[0]] + Insert(x, s[1..])
  }

  /** The processing order of one listing. */
  function SortEntries(es: seq<Entry>): seq<Entry> {
    if es == [] then [] else Insert(es[0], SortEntries(es[1..]))
  }

  lemma {:induction false} InsertPermutation(x: Entry, s: seq<Entry>)
    ensures multiset(Insert(x, s)) == multiset(s) + multiset{x}
  {
    if s != [] && !KeyLe(x, s[0]) {
      InsertPermutation(x, s[1..]);
      assert s == [s[0]] + s[1..];
    }
  }

  /** Sorting neither loses nor invents entries. */
  lemma {:induction false} SortEntriesPermutation(es: seq<Entry>)
    ensures multiset(SortEntries(es)) == multiset(es)
  {
    if es != [] {
      SortEntriesPermutation(es[1..]);
      InsertPermutation(es[0], SortEntries(es[1..]));
      assert es == [es[0]] + es[1..];
    }
  }

  /** `a` sorts no later than any element of `s`. */
  predicate Below(a: Entry, s: seq<Entry>) {
    forall j :: 0 <= j < |s| ==> KeyLe(a, s[j])
  }

  lemma ConsSorted(a: Entry, s: seq<Entry>)
    requires Sorted(s) && Below(a, s)
    ensures Sorted([a] + s)
  {
    var r := [a] + s;
    forall i, j | 0 <= i < j < |r| ensures KeyLe(r[i], r[j]) {
      if i > 0 { assert r[i] == s[i - 1]; }
      assert r[j] == s[j - 1];
    }
  }

  lemma {:induction false} InsertBelow(a: Entry, x: Entry, s: seq<Entry>)
    requires Below(a, s) && KeyLe(a, x)
    ensures Below(a, Insert(x, s))
  {
    if s != [] && !KeyLe(x, s[0]) {
      InsertBelow(a, x, s[1..]);
      assert Insert(x, s) == [s[0]] + Insert(x, s[1..]);
    }
  }

  lemma {:induction false} InsertSorted(x: Entry, s: seq<Entry>)
    requires Sorted(s)
    ensures Sorted(Insert(x, s))
  {
    if s == [] {
    } else if KeyLe(x, s[0]) {
      forall j | 0 <= j < |s| ensures KeyLe(x, s[j]) {
        if j > 0 { KeyLeTransitive(x, s[0], s[j]); }
      }
      ConsSorted(x, s);
    } else {
      assert Sorted(s[1..]);
      InsertSorted(x, s[1..]);
      KeyLeTotal(x, s[0]);
      InsertBelow(s[0], x, s[1..]);
      ConsSorted(s[0], Insert(x, s[1..]));
    }
  }

  /** Directories before everything else, ascending names within each group. */
  lemma {:induction false} SortEntriesSorted(es: seq<Entry>)
    ensures Sorted(SortEntries(es))
  {
    if es != [] {
      SortEntriesSorted(es[1..]);
      InsertSorted(es[0], SortEntries(es[1..]));
    }
  }

  /** The entries of `s` whose key is `k`, in their order in `s`. */
  function WithKey(s: seq<Entry>, k: (bool, string)): seq<Entry> {
    if s == [] then []
    else (if Key(s[0]) == k then [s[0]] else []) + WithKey(s[1..], k)
  }

  /** The entry `y` if its key is `k`, else nothing. */
  function Own(y: Entry, k: (bool, string)): seq<Entry> {
    if Key(y) == k then [y] else []
  }

  lemma WithKeyCons(y: Entry, t: seq<Entry>, k: (bool, string))
    ensures WithKey([y] + t, k) == Own(y, k) + WithKey(t, k)
  {
    assert ([y] + t)[1..] == t;
  }

  lemma {:induction false} InsertWithKey(x: Entry, s: seq<Entry>, k: (bool, string))
    ensures WithKey(Insert(x, s), k) == Own(x, k) + WithKey(s, k)
  {
    if s == [] {
      WithKeyCons(x, [], k);
    } else if KeyLe(x, s[0]) {
      WithKeyCons(x, s, k);
    } else {
      var s0, t := s[0], s[1..];
      assert s == [s0] + t;
      KeyLeTotal(x, s0);
      InsertWithKey(x, t, k);
      WithKeyCons(s0, Insert(x, t), k);
      WithKeyCons(s0, t, k);
      assert Own(s0, k) + Own(x, k) == Own(x, k) + Own(s0, k);
      calc {
        WithKey(Insert(x, s), k);
        Own(s0, k) + (Own(x, k) + WithKey(t, k));
        (Own(s0, k) + Own(x, k)) + WithKey(t, k);
        (Own(x, k) + Own(s0, k)) + WithKey(t, k);
        Own(x, k) + WithKey(s, k);
      }
    }
  }

  /** Stability: entries with equal keys keep their listing order. */
  lemma {:induction false} SortEntriesStable(es: seq<Entry>, k: (bool, string))
    ensures WithKey(SortEntries(es), k) == WithKey(es, k)
  {
    if es != [] {
      SortEntriesStable(es[1..], k);
      InsertWithKey(es[0], SortEntries(es[1..]), k);
    }
  }

  lemma NameOrderExample()
    ensures !LexLe("b.txt", "a.txt")
  {
  }

  lemma DirFirstExample(f: Entry, d: Entry)
    requires !IsDir(f) && IsDir(d)
    ensures Insert(f, [d]) == [d, f]
  {
    assert !KeyLe(f, d);
  }

  /** Files `b.txt`, `a.txt` and directory `z` are processed as `z`, `a.txt`, `b.txt`. */
  lemma SortExample(b: Entry, a: Entry, z: Entry)
    requires b.name == "b.txt" && b.kind == "file"
    requires a.name == "a.txt" && a.kind == "file"
    requires z.name == "z" && IsDir(z)
    ensures SortEntries([b, a, z]) == [z, a, b]
  {
    assert SortEntries([z]) == [z];
    DirFirstExample(a, z);
    assert SortEntries([a, z]) == [z, a] by { assert [a, z][1..] == [z]; }
    NameOrderExample();
    assert Insert(b, [a]) == [a, b];
    assert Insert(b, [z, a]) == [z] + Insert(b, [a]) by { assert [z, a][1..] == [a]; }
    assert [b, a, z][1..] == [a, z];
  }
}
