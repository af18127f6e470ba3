/** `save_analysis`: the Markdown text written to the output file, with the
    structure lines in one fenced block and then one section per entry of the
    contents dictionary, in the dictionary's order. */
module Document {
  import opened OrderedDict

  const StructureHeading: string := "# Repository Structure\n\n"
  const ContentsHeading: string := "# File Contents\n\n"
  const FenceOpen: string := "```\n"
  const FenceClose: string := "\n```\n\n"
  const SectionMark: string := "## "
  const Gap: string := "\n\n"

  /** `"\n".join(lines)`. */
  function Join(lines: seq<string>): string {
    if lines == [] then ""
    else if |lines| == 1 then lines[0]
    else lines[0] + "\n" + Join(lines[1..])
  }

  /** `s.split("\n")`: the pieces between newlines, always at least one. */
  function Split(s: string): (r: seq<string>)
    ensures |r| >= 1
  {
    if s == [] then [""]
    else
      var rest := Split(s[1..]);
      if s[0] == '\n' then [""] + rest else [[s[0]] + rest[0]] + rest[1..]
  }

  predicate NoNewline(t: string) { forall i :: 0 <= i < |t| ==> t[i] != '\n' }

  predicate NoNewlines(lines: seq<string>) { forall i :: 0 <= i < |lines| ==> NoNewline(lines[i]) }

  /** Joining the pieces of a split gives the text back. */
  lemma {:induction false} SplitJoin(s: string)
    ensures Join(Split(s)) == s
  {
    if s != [] {
      var rest := Split(s[1..]);
      SplitJoin(s[1..]);
      if s[0] == '\n' {
        assert ([""] + rest)[1..] == rest;
      } else {
        var r := [[s[0]] + rest[0]] + rest[1..];
        assert r[1..] == rest[1..];
        if |rest| > 1 {
          assert rest[0] + "\n" + Join(rest[1..]) == Join(rest);
        }
      }
    }
  }

  lemma {:induction false} SplitPrefix(a: string, b: string)
    requires NoNewline(a)
    ensures Split(a + b) == [a + Split(b)[0]] + Split(b)[1..]
  {
    if a != [] {
      assert (a + b)[0] == a[0] && (a + b)[1..] == a[1..] + b;
      SplitPrefix(a[1..], b);
      var rest := Split(a[1..] + b);
      assert rest[0] == a[1..] + Split(b)[0] && rest[1..] == Split(b)[1..];
      assert [a[0]] + (a[1..] + Split(b)[0]) == a + Split(b)[0];
    } else {
      assert a + b == b && a + Split(b)[0] == Split(b)[0];
      assert [Split(b)[0]] + Split(b)[1..] == Split(b);
    }
  }

  /** Lines without newlines come back from the joined text; the empty list
      does not, since the empty text splits into one empty line. */
  lemma {:induction false} JoinSplit(lines: seq<string>)
    requires lines != [] && NoNewlines(lines)
    ensures Split(Join(lines)) == lines
  {
    assert NoNewline(lines[0]);
    if |lines| == 1 {
      SplitPrefix(lines[0], "");
      assert lines[0] + "" == lines[0];
    } else {
      JoinSplit(lines[1..]);
      var tail := "\n" + Join(lines[1..]);
      SplitPrefix(lines[0], tail);
      assert lines[0] + "\n" + Join(lines[1..]) == lines[0] + tail;
      assert tail[0] == '\n' && tail[1..] == Join(lines[1..]);
      assert lines[0] + "" == lines[0];
      assert [lines[0]] + lines[1..] == lines;
    }
  }

  /** The section written for one entry of the contents dictionary. */
  function Section(entry: (string, string)): string {
    SectionMark + entry.0 + Gap + FenceOpen + entry.1 + FenceClose
  }

  /** The sections of the entries, in the dictionary's order. */
  function Sections(d: Dict): string {
    if d == [] then "" else Sections(d[..|d| - 1]) + Section(d[|d| - 1])
  }

  /** Everything before the sections: the structure heading, the fenced
      structure lines and the contents heading. */
  function Preamble(structure: seq<string>): string {
    StructureHeading + FenceOpen + Join(structure) + FenceClose + ContentsHeading
  }

  /** The text `save_analysis` writes. */
  function Document(structure: seq<string>, contents: Dict): string {
    Preamble(structure) + Sections(contents)
  }

  /** `save_analysis(structure, contents, output_file)`, writing piece by
      piece; the result is the text of the file. */
  method SaveAnalysis(structure: seq<string>, contents: Dict) returns (written: string)
    ensures written == Document(structure, contents)
  {
    written := StructureHeading;
    written := written + FenceOpen;
    written := written + Join(structure);
    written := written + FenceClose;
    written := written + ContentsHeading;
    var i := 0;
    while i < |contents|
      invariant i <= |contents|
      invariant written == Preamble(structure) + Sections(contents[..i])
    {
      var (path, content) := contents[i];
      assert contents[..i + 1][..i] == contents[..i];
      written := written + SectionMark + path + Gap;
      written := written + FenceOpen;
      written := written + content;
      written := written + FenceClose;
      i := i + 1;
    }
    assert contents[..i] == contents;
  }

  lemma SectionsSnoc(d: Dict, x: (string, string))
    ensures Sections(d + [x]) == Sections(d) + Section(x)
  {
    assert (d + [x])[..|d|] == d;
  }

  /** Sections concatenate: the sections of two runs of entries are the
      sections of the first followed by those of the second. */
  lemma {:induction false} SectionsAppend(a: Dict, b: Dict)
    ensures Sections(a + b) == Sections(a) + Sections(b)
    decreases |b|
  {
    if b == [] {
      assert a + b == a;
    } else {
      var b', x := b[..|b| - 1], b[|b| - 1];
      assert b == b' + [x];
      assert a + b == (a + b') + [x];
      SectionsAppend(a, b');
      SectionsSnoc(a + b', x);
      SectionsSnoc(b', x);
    }
  }

  /** The structure block sits right after the heading and the opening fence,
      and lines without newlines are recovered from it one by one. */
  lemma StructureBlock(structure: seq<string>, contents: Dict)
    requires structure != [] && NoNewlines(structure)
    ensures var start := |StructureHeading + FenceOpen|;
            var block := Document(structure, contents)[start..start + |Join(structure)|];
            block == Join(structure) && Split(block) == structure
  {
    JoinSplit(structure);
    var doc := Document(structure, contents);
    var start := |StructureHeading + FenceOpen|;
    var rest := FenceClose + ContentsHeading + Sections(contents);
    assert doc == (StructureHeading + FenceOpen) + Join(structure) + rest;
  }

  /** Each entry's section follows the preamble and the sections of the
      entries before it, and precedes those of the entries after it. */
  lemma SectionPlacement(structure: seq<string>, contents: Dict, i: nat)
    requires i < |contents|
    ensures Document(structure, contents)
         == Preamble(structure) + Sections(contents[..i]) + Section(contents[i]) + Sections(contents[i + 1..])
  {
    var before, after := contents[..i], contents[i + 1..];
    assert contents == before + [contents[i]] + after;
    SectionsAppend(before + [contents[i]], after);
    SectionsSnoc(before, contents[i]);
  }
}
