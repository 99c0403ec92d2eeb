/**
 * What `parse_diff` does to whole inputs, read off the description `Annotated`
 * that `ParseDiff` is proved to compute: the cutting into parts loses no line,
 * no flushed block is empty, text without headers is annotated line by line,
 * a file's marker follows its hunks, and the hunk open at a file header is lost.
 */
module DiffProperties {
  import opened Wrappers
  import opened Text
  import opened DiffSyntax
  import opened DiffAnnotator

  /** Cutting into parts loses and reorders nothing: the parts' lines, heads included, are the input. */
  lemma {:induction false} FlattenParts(lines: seq<string>, isHead: string -> bool)
    ensures Flatten(Parts(lines, isHead)) == lines
    decreases |lines|
  {
    if lines != [] {
      var init, x := lines[..|lines| - 1], lines[|lines| - 1];
      assert init + [x] == lines;
      FlattenParts(init, isHead);
      var ps := Parts(init, isHead);
      if isHead(x) {
        PartsSnocHead(init, x, isHead);
        var ps' := ps + [Part(Some(x), [])];
        assert ps'[..|ps'| - 1] == ps;
      } else {
        PartsSnocBody(init, x, isHead);
        var last := ps[|ps| - 1];
        var ps' := ps[..|ps| - 1] + [last.(body := last.body + [x])];
        assert ps'[..|ps'| - 1] == ps[..|ps| - 1];
        assert Flatten(ps) == Flatten(ps[..|ps| - 1]) + HeadLines(last.head) + last.body;
      }
    }
  }

  /** A run of lines without a head stays in the part open before it. */
  lemma {:induction false} PartsAfterHead(pre: seq<string>, h: string, body: seq<string>, isHead: string -> bool)
    requires isHead(h)
    requires forall j :: 0 <= j < |body| ==> !isHead(body[j])
    ensures Parts(pre + [h] + body, isHead) == Parts(pre, isHead) + [Part(Some(h), body)]
    decreases |body|
  {
    if body == [] {
      assert pre + [h] + body == pre + [h];
      PartsSnocHead(pre, h, isHead);
    } else {
      var init, x := body[..|body| - 1], body[|body| - 1];
      PartsAfterHead(pre, h, init, isHead);
      assert pre + [h] + body == (pre + [h] + init) + [x];
      PartsSnocBody(pre + [h] + init, x, isHead);
      var ps := Parts(pre, isHead) + [Part(Some(h), init)];
      assert ps[..|ps| - 1] == Parts(pre, isHead);
      assert init + [x] == body;
    }
  }

  /** Lines without a head form one part with no head. */
  lemma {:induction false} PartsWithoutHead(lines: seq<string>, isHead: string -> bool)
    requires forall j :: 0 <= j < |lines| ==> !isHead(lines[j])
    ensures Parts(lines, isHead) == [Part(None, lines)]
    decreases |lines|
  {
    if lines != [] {
      var init, x := lines[..|lines| - 1], lines[|lines| - 1];
      PartsWithoutHead(init, isHead);
      assert init + [x] == lines;
      PartsSnocBody(init, x, isHead);
    }
  }

  lemma {:induction false} ClosedBlocksNonEmpty(secs: seq<Part>)
    ensures forall i :: 0 <= i < |ClosedBlocks(secs)| ==> ClosedBlocks(secs)[i] != []
    decreases |secs|
  {
    if secs != [] {
      var sec := secs[|secs| - 1];
      ClosedBlocksNonEmpty(secs[..|secs| - 1]);
      HunksNonEmpty(Parts(sec.body, IsHunkHeader));
      MarkerBlockShape(sec.head);
    }
  }

  /** Every flushed block holds at least one line: `if current_hunk:` and `if current_file:` never skip a block. */
  lemma NoEmptyBlocks(secs: seq<Part>)
    requires secs != []
    ensures forall i :: 0 <= i < |DocumentBlocks(secs)| ==> DocumentBlocks(secs)[i] != []
  {
    var sec := secs[|secs| - 1];
    ClosedBlocksNonEmpty(secs[..|secs| - 1]);
    HunksNonEmpty(Parts(sec.body, IsHunkHeader));
    MarkerBlockShape(sec.head);
  }

  /**
   * A diff without file or hunk headers comes out line by line annotated and
   * joined by newlines; in particular the empty input gives the empty text.
   */
  lemma PlainText(lines: seq<string>)
    requires forall j :: 0 <= j < |lines| ==> !IsFileHeader(lines[j]) && !IsHunkHeader(lines[j])
    ensures Annotated(lines) == Join(AnnotateAll(lines), "\n")
    ensures lines == [] ==> Annotated(lines) == ""
  {
    PartsWithoutHead(lines, IsFileHeader);
    PartsWithoutHead(lines, IsHunkHeader);
    var secs := [Part(None, lines)];
    assert secs[..0] == [];
    var hs := Hunks(lines);
    assert DocumentBlocks(secs) == hs;
    assert [Part(None, lines)][..0] == [];
    assert HunkOf(Part(None, lines)) == AnnotateAll(lines);
    assert hs == HunksOfParts([Part(None, lines)]);
    if lines == [] {
      assert hs == [];
    } else {
      assert |AnnotateAll(lines)| == |lines|;
      assert hs == [AnnotateAll(lines)];
      assert JoinEach(hs) == [Join(AnnotateAll(lines), "\n")];
    }
  }

  /** The part before the first file header of a diff that starts with one contributes nothing. */
  lemma LeadingPartEmpty()
    ensures ClosedBlocks([Part(None, [])]) == []
  {
    HunksEmpty();
    assert [Part(None, [])][..0] == [];
  }

  lemma DocumentBlocksSnoc(secs: seq<Part>, sec: Part)
    ensures DocumentBlocks(secs + [sec]) == ClosedBlocks(secs) + SectionBlocks(sec, false)
  {
    assert (secs + [sec])[..|secs|] == secs;
  }

  lemma ClosedBlocksSnoc(secs: seq<Part>, sec: Part)
    ensures ClosedBlocks(secs + [sec]) == ClosedBlocks(secs) + SectionBlocks(sec, true)
  {
    assert (secs + [sec])[..|secs|] == secs;
  }

  lemma OneSectionBlocks(sec: Part)
    ensures DocumentBlocks([Part(None, []), sec]) == Hunks(sec.body) + MarkerBlock(sec.head)
  {
    DocumentBlocksSnoc([Part(None, [])], sec);
    assert [Part(None, [])] + [sec] == [Part(None, []), sec];
    LeadingPartEmpty();
  }

  /** How the texts associate; stated apart so that the solver meets it outside the large unfoldings of its callers. */
  lemma SnocDisplays(p0: Part, p1: Part, p2: Part)
    ensures [p0] + [p1] == [p0, p1] && [p0, p1] + [p2] == [p0, p1, p2]
  {
  }

  /** The section after an empty leading part, closed by a later header. */
  lemma ClosedOfOne(sec1: Part)
    ensures ClosedBlocks([Part(None, []), sec1]) == DropLast(Hunks(sec1.body)) + MarkerBlock(sec1.head)
  {
    SnocDisplays(Part(None, []), sec1, sec1);
    ClosedBlocksSnoc([Part(None, [])], sec1);
    LeadingPartEmpty();
  }

  lemma TwoSectionBlocks(sec1: Part, sec2: Part)
    ensures DocumentBlocks([Part(None, []), sec1, sec2])
         == DropLast(Hunks(sec1.body)) + MarkerBlock(sec1.head) + Hunks(sec2.body) + MarkerBlock(sec2.head)
  {
    SnocDisplays(Part(None, []), sec1, sec2);
    DocumentBlocksSnoc([Part(None, []), sec1], sec2);
    ClosedOfOne(sec1);
  }

  lemma MarkerOf(h: string, path: string)
    requires FileHeaderPath(h) == Some(path)
    ensures MarkerBlock(Some(h)) == [[FileMarker(path)]]
  {
  }

  lemma PartsOfOneHead(h: string, body: seq<string>, isHead: string -> bool)
    requires isHead(h)
    requires forall j :: 0 <= j < |body| ==> !isHead(body[j])
    ensures Parts([h] + body, isHead) == [Part(None, []), Part(Some(h), body)]
  {
    var none: seq<string> := [];
    NothingBefore(h, body, isHead);
    PartsAfterHead(none, h, body, isHead);
  }

  /** With nothing before the head: the lines are unchanged and the one part before it is empty. */
  lemma NothingBefore(h: string, body: seq<string>, isHead: string -> bool)
    ensures [] + [h] + body == [h] + body
    ensures Parts([], isHead) == [Part(None, [])]
  {
  }

  lemma PartsOfTwoHeads(h1: string, b1: seq<string>, h2: string, b2: seq<string>, isHead: string -> bool)
    requires isHead(h1) && isHead(h2)
    requires forall j :: 0 <= j < |b1| ==> !isHead(b1[j])
    requires forall j :: 0 <= j < |b2| ==> !isHead(b2[j])
    ensures Parts([h1] + b1 + [h2] + b2, isHead) == [Part(None, []), Part(Some(h1), b1), Part(Some(h2), b2)]
  {
    PartsOfOneHead(h1, b1, isHead);
    PartsAfterHead([h1] + b1, h2, b2, isHead);
  }

  /**
   * A diff of one file: its hunks in order, then its `## File:` marker. The
   * marker, opened first, is flushed last.
   */
  lemma SingleFile(h: string, path: string, body: seq<string>)
    requires FileHeaderPath(h) == Some(path)
    requires forall j :: 0 <= j < |body| ==> !IsFileHeader(body[j])
    ensures Annotated([h] + body) == Join(JoinEach(Hunks(body)) + [FileMarker(path)], "\n")
  {
    PartsOfOneHead(h, body, IsFileHeader);
    OneSectionBlocks(Part(Some(h), body));
    MarkerOf(h, path);
    JoinEachAppend(Hunks(body), [[FileMarker(path)]]);
    assert JoinEach([[FileMarker(path)]]) == [FileMarker(path)];
  }

  /**
   * A diff of two files: the first loses its last hunk, the one still open when
   * the second file header arrives; each marker follows its file's hunks.
   */
  lemma TwoFiles(h1: string, path1: string, b1: seq<string>, h2: string, path2: string, b2: seq<string>)
    requires FileHeaderPath(h1) == Some(path1) && FileHeaderPath(h2) == Some(path2)
    requires forall j :: 0 <= j < |b1| ==> !IsFileHeader(b1[j])
    requires forall j :: 0 <= j < |b2| ==> !IsFileHeader(b2[j])
    ensures Annotated([h1] + b1 + [h2] + b2) ==
      Join(JoinEach(DropLast(Hunks(b1))) + [FileMarker(path1)] + JoinEach(Hunks(b2)) + [FileMarker(path2)], "\n")
  {
    PartsOfTwoHeads(h1, b1, h2, b2, IsFileHeader);
    TwoSectionBlocks(Part(Some(h1), b1), Part(Some(h2), b2));
    MarkerOf(h1, path1);
    MarkerOf(h2, path2);
    JoinEachFour(DropLast(Hunks(b1)), FileMarker(path1), Hunks(b2), FileMarker(path2));
  }

  lemma JoinEachFour(a: seq<seq<string>>, m1: string, b: seq<seq<string>>, m2: string)
    ensures JoinEach(a + [[m1]] + b + [[m2]]) == JoinEach(a) + [m1] + JoinEach(b) + [m2]
  {
    JoinEachAppend(a + [[m1]] + b, [[m2]]);
    JoinEachAppend(a + [[m1]], b);
    JoinEachAppend(a, [[m1]]);
    assert JoinEach([[m1]]) == [m1] && JoinEach([[m2]]) == [m2];
  }

  /** A hunk header followed by one more line makes one hunk: the seed and that line, annotated. */
  lemma OneHunk(hh: string, x: string)
    requires IsHunkHeader(hh) && !IsHunkHeader(x)
    ensures Hunks([hh, x]) == [HunkSeed + [Annotate(x)]]
  {
    HunksEmpty();
    HunksSnocHeader([], hh);
    assert [] + [hh] == [hh];
    HunksSnocContent([hh], x);
    assert [hh] + [x] == [hh, x];
  }

  lemma ExampleHeader(h: string, a: string, b: string)
    requires a != [] && b != [] && NoNewline(a) && NoNewline(b) && ' ' !in b
    requires h == FileHeaderPrefix + a + " b/" + b
    ensures FileHeaderPath(h) == Some(b)
  {
    FileHeaderOf(a, b);
  }

  lemma ExampleHunkHeader(hh: string, middle: string)
    requires NoNewline(middle) && hh == "@@" + middle + "@@"
    ensures IsHunkHeader(hh) && !IsFileHeader(hh)
  {
    assert hh == "@@" + middle + "@@" + "";
    HunkHeaderOf(middle, "");
    assert hh[0] == '@';
  }

  lemma ExampleAdded(add: string, text: string)
    requires add == "+" + text
    requires text == [] || (text[0] != '+' && text[0] != '@')
    ensures !IsFileHeader(add) && !IsHunkHeader(add)
    ensures Annotate(add) == text + AddedSuffix
  {
    assert add[0] == '+';
    assert add[1..] == text;
    if |add| >= 3 {
      assert add[..3][1] == add[1];
    }
  }

  /** A diff of one file with one hunk holding one line. */
  lemma OneFileOneLine(h: string, path: string, hh: string, x: string)
    requires FileHeaderPath(h) == Some(path)
    requires IsHunkHeader(hh) && !IsFileHeader(hh) && !IsFileHeader(x) && !IsHunkHeader(x)
    ensures Annotated([h, hh, x]) == Join(HunkSeed + [Annotate(x)] + [FileMarker(path)], "\n")
  {
    assert [h] + [hh, x] == [h, hh, x];
    SingleFile(h, path, [hh, x]);
    OneHunk(hh, x);
    JoinEachOne(HunkSeed + [Annotate(x)]);
    JoinAppendOne(HunkSeed + [Annotate(x)], FileMarker(path), "\n");
  }

  lemma JoinEachOne(block: seq<string>)
    ensures JoinEach([block]) == [Join(block, "\n")]
  {
  }

  /** Joining a joined block and one more text is joining the block extended by it. */
  lemma JoinAppendOne(parts: seq<string>, last: string, sep: string)
    requires parts != []
    ensures Join([Join(parts, sep), last], sep) == Join(parts + [last], sep)
    decreases |parts|
  {
    if |parts| == 1 {
      assert parts + [last] == [parts[0], last];
    } else {
      JoinAppendOne(parts[1..], last, sep);
      assert (parts + [last])[1..] == parts[1..] + [last];
    }
  }

  lemma XpyHeader(h: string)
    requires h == "diff --git a/x.py b/x.py"
    ensures FileHeaderPath(h) == Some("x.py")
  {
    ExampleHeader(h, "x.py", "x.py");
  }

  lemma XpyHunkHeader(hh: string)
    requires hh == "@@ -1,1 +1,2 @@"
    ensures IsHunkHeader(hh) && !IsFileHeader(hh)
  {
    ExampleHunkHeader(hh, " -1,1 +1,2 ");
  }

  lemma XpyAdded(add: string)
    requires add == "+new"
    ensures !IsFileHeader(add) && !IsHunkHeader(add) && Annotate(add) == "new" + AddedSuffix
  {
    ExampleAdded(add, "new");
  }

  /**
   * The single-file, single-hunk diff `diff --git a/x.py b/x.py`, `@@ -1,1 +1,2 @@`,
   * `+new`: the hunk (its seed lines and the annotated added line), then the marker.
   */
  lemma SingleFileExample(h: string, hh: string, add: string)
    requires h == "diff --git a/x.py b/x.py" && hh == "@@ -1,1 +1,2 @@" && add == "+new"
    ensures Annotated([h, hh, add]) == Join(HunkSeed + ["new" + AddedSuffix, FileMarker("x.py")], "\n")
  {
    XpyHeader(h);
    XpyHunkHeader(hh);
    XpyAdded(add);
    OneFileOneLine(h, "x.py", hh, add);
    SnocTwo(HunkSeed, Annotate(add), FileMarker("x.py"));
  }

  /** How the texts associate; stated apart so that the solver meets it outside the large unfoldings of its callers. */
  lemma SnocTwo(a: seq<string>, u: string, v: string)
    ensures a + [u] + [v] == a + [u, v]
  {
  }

  lemma XHeader(h: string)
    requires h == "diff --git a/x b/x"
    ensures FileHeaderPath(h) == Some("x")
  {
    ExampleHeader(h, "x", "x");
  }

  lemma YHeader(h: string)
    requires h == "diff --git a/y b/y"
    ensures FileHeaderPath(h) == Some("y")
  {
    ExampleHeader(h, "y", "y");
  }

  lemma ShortHunkHeader(hh: string)
    requires hh == "@@ -1 +1 @@"
    ensures IsHunkHeader(hh) && !IsFileHeader(hh)
  {
    ExampleHunkHeader(hh, " -1 +1 ");
  }

  lemma AddedA(add: string)
    requires add == "+a"
    ensures !IsFileHeader(add) && !IsHunkHeader(add) && Annotate(add) == "a" + AddedSuffix
  {
    ExampleAdded(add, "a");
  }

  /**
   * The hunk open at a file header is lost: in `diff --git a/x b/x`, `@@ -1 +1 @@`,
   * `+a`, `diff --git a/y b/y` the added line never reaches the output, which is
   * just the two markers.
   */
  lemma DroppedHunkExample(h1: string, hh: string, add: string, h2: string)
    requires h1 == "diff --git a/x b/x" && hh == "@@ -1 +1 @@" && add == "+a" && h2 == "diff --git a/y b/y"
    ensures Annotated([h1, hh, add, h2]) == Join([FileMarker("x"), FileMarker("y")], "\n")
  {
    XHeader(h1);
    YHeader(h2);
    ShortHunkHeader(hh);
    AddedA(add);
    DroppedHunk(h1, "x", hh, add, h2, "y");
  }

  /** One file with one hunk, then a second file header: only the two markers come out. */
  lemma DroppedHunk(h1: string, path1: string, hh: string, x: string, h2: string, path2: string)
    requires FileHeaderPath(h1) == Some(path1) && FileHeaderPath(h2) == Some(path2)
    requires IsHunkHeader(hh) && !IsFileHeader(hh) && !IsFileHeader(x) && !IsHunkHeader(x)
    ensures Annotated([h1, hh, x, h2]) == Join([FileMarker(path1), FileMarker(path2)], "\n")
  {
    var b1: seq<string> := [hh, x];
    var b2: seq<string> := [];
    assert [h1] + b1 + [h2] + b2 == [h1, hh, x, h2];
    TwoFiles(h1, path1, b1, h2, path2, b2);
    ClosedOneHunk(hh, x);
    HunksEmpty();
    MarkersOnly(FileMarker(path1), FileMarker(path2));
  }

  /** A section closed while its only hunk is open contributes no hunk. */
  lemma ClosedOneHunk(hh: string, x: string)
    requires IsHunkHeader(hh) && !IsHunkHeader(x)
    ensures DropLast(Hunks([hh, x])) == []
  {
    OneHunk(hh, x);
  }

  /** How the texts associate; stated apart so that the solver meets it outside the large unfoldings of its callers. */
  lemma MarkersOnly(m1: string, m2: string)
    ensures JoinEach([]) + [m1] + JoinEach([]) + [m2] == [m1, m2]
  {
    assert JoinEach([]) == [];
  }
}
