/**
 * `parse_diff` as evidently intended: a file header flushes the hunk still
 * open before it flushes the file marker, as the code after the loop does, so
 * no change line of any file is lost. The loop, its description and the
 * proof that they agree reuse the pieces of `DiffAnnotator`; only the
 * file-header step and the treatment of closed sections differ.
 */
module DiffIntended {
  import opened Wrappers
  import opened Text
  import opened DiffSyntax
  import opened DiffAnnotator
  import opened DiffProperties

  /** One iteration with the correction: a file header flushes the open hunk, then the file. */
  function StepIntended(s: State, line: string): State
  {
    match FileHeaderPath(line)
    case Some(path) =>
      State(Flush(Flush(s.result, s.currentHunk), s.currentFile), Some([FileMarker(path)]), None)
    case None => Step(s, line)
  }

  /** Every section contributes all its hunks, then its marker. */
  function OpenBlocks(secs: seq<Part>): seq<seq<string>>
  {
    if secs == [] then [] else OpenBlocks(secs[..|secs| - 1]) + SectionBlocks(secs[|secs| - 1], false)
  }

  /** The corrected annotated text of a diff given as its lines. */
  function AnnotatedIntended(lines: seq<string>): string
  {
    Join(JoinEach(OpenBlocks(Parts(lines, IsFileHeader))), "\n")
  }

  /** The corrected loop's state once `secs` have been read. */
  function IntendedOf(secs: seq<Part>): State
    requires secs != []
  {
    OpenSection(OpenBlocks(secs[..|secs| - 1]), secs[|secs| - 1])
  }

  /** The fold of `StepIntended` over the lines. */
  function RunIntended(lines: seq<string>): State
  {
    if lines == [] then Start else StepIntended(RunIntended(lines[..|lines| - 1]), lines[|lines| - 1])
  }

  /**
   * The corrected loop: the file-header branch flushes `current_hunk` first.
   * Its text is the newline join of `OutLines(lines)`, which holds the
   * annotation of every change and context line.
   */
  method ParseDiffIntended(lines: seq<string>) returns (out: string)
    ensures out == AnnotatedIntended(lines)
    ensures out == Join(OutLines(lines), "\n") && multiset(BodyOut(lines)) <= multiset(OutLines(lines))
  {
    var result: seq<string> := [];
    var currentFile: Option<seq<string>> := None;
    var currentHunk: Option<seq<string>> := None;
    for i := 0 to |lines|
      invariant State(result, currentFile, currentHunk) == RunIntended(lines[..i])
    {
      var line := lines[i];
      assert lines[..i + 1][..i] == lines[..i];
      var fileMatch := FileHeaderPath(line);
      if fileMatch.Some? {
        if currentHunk.Some? && currentHunk.value != [] {
          result := result + [Join(currentHunk.value, "\n")];
        }
        if currentFile.Some? && currentFile.value != [] {
          result := result + [Join(currentFile.value, "\n")];
        }
        currentFile := Some([FileMarker(fileMatch.value)]);
        currentHunk := None;
      } else if IsHunkHeader(line) {
        if currentHunk.Some? && currentHunk.value != [] {
          result := result + [Join(currentHunk.value, "\n")];
        }
        currentHunk := Some(HunkSeed);
      } else {
        if currentHunk.None? {
          currentHunk := Some([]);
        }
        if StartsWith(line, "+") && !StartsWith(line, "+++") {
          currentHunk := Some(currentHunk.value + [line[1..] + AddedSuffix]);
        } else if StartsWith(line, "-") && !StartsWith(line, "---") {
          currentHunk := Some(currentHunk.value + [line[1..] + RemovedSuffix]);
        } else {
          currentHunk := Some(currentHunk.value + [line]);
        }
      }
    }
    if currentHunk.Some? && currentHunk.value != [] {
      result := result + [Join(currentHunk.value, "\n")];
    }
    if currentFile.Some? && currentFile.value != [] {
      result := result + [Join(currentFile.value, "\n")];
    }
    out := Join(result, "\n");
    assert lines[..|lines|] == lines;
    RunIntendedAnnotated(lines);
    IntendedText(lines);
    IntendedKeepsEveryLine(lines);
  }

  // ---------------------------------------------------------------------------
  // The corrected loop computes the corrected description
  // ---------------------------------------------------------------------------

  /** A file header closes the open section with all its hunks and its marker. */
  lemma IntendedFileHeader(prefix: seq<seq<string>>, cur: Part, x: string)
    requires IsFileHeader(x)
    ensures StepIntended(OpenSection(prefix, cur), x)
         == OpenSection(prefix + SectionBlocks(cur, false), Part(Some(x), []))
  {
    var hs := Hunks(cur.body);
    var st := OpenSection(prefix, cur);
    HunksNonEmpty(Parts(cur.body, IsHunkHeader));
    FlushBlocks(prefix, hs);
    assert Flush(st.result, st.currentHunk) == JoinEach(prefix + hs);
    FlushMarker(prefix + hs, cur.head);
    assert prefix + SectionBlocks(cur, false) == prefix + hs + MarkerBlock(cur.head);
    FreshSection(prefix + SectionBlocks(cur, false), x);
  }

  /** A section just opened by a file header has flushed nothing and holds no hunk. */
  lemma FreshSection(prefix: seq<seq<string>>, x: string)
    requires IsFileHeader(x)
    ensures OpenSection(prefix, Part(Some(x), []))
         == State(JoinEach(prefix), Some([FileMarker(FileHeaderPath(x).value)]), None)
  {
    HunksEmpty();
    assert DropLast(Hunks([])) == [];
    assert prefix + DropLast(Hunks([])) == prefix;
  }

  lemma IntendedStep(lines: seq<string>, x: string)
    ensures StepIntended(IntendedOf(Parts(lines, IsFileHeader)), x) == IntendedOf(Parts(lines + [x], IsFileHeader))
  {
    var secs := Parts(lines, IsFileHeader);
    var prefix := OpenBlocks(secs[..|secs| - 1]);
    var cur := secs[|secs| - 1];
    if IsFileHeader(x) {
      PartsSnocHead(lines, x, IsFileHeader);
      var secs' := secs + [Part(Some(x), [])];
      assert secs'[..|secs'| - 1] == secs;
      IntendedFileHeader(prefix, cur, x);
    } else {
      PartsSnocBody(lines, x, IsFileHeader);
      var secs' := Extend(secs, x);
      assert Parts(lines + [x], IsFileHeader) == secs';
      assert secs'[..|secs'| - 1] == secs[..|secs| - 1];
      assert secs'[|secs'| - 1] == cur.(body := cur.body + [x]);
      if IsHunkHeader(x) {
        SectionHunkHeader(prefix, cur, x);
      } else {
        SectionContent(prefix, cur, x);
      }
    }
  }

  lemma IntendedEmpty()
    ensures IntendedOf(Parts([], IsFileHeader)) == Start
  {
    HunksEmpty();
    assert Parts([], IsFileHeader) == [Part(None, [])];
    assert [Part(None, [])][..0] == [];
  }

  /** The corrected loop over any input reaches the state read off the shape of the input. */
  lemma {:induction false} RunIntendedIsIntended(lines: seq<string>)
    ensures RunIntended(lines) == IntendedOf(Parts(lines, IsFileHeader))
    decreases |lines|
  {
    if lines == [] {
      IntendedEmpty();
    } else {
      var init, x := lines[..|lines| - 1], lines[|lines| - 1];
      assert init + [x] == lines;
      RunIntendedIsIntended(init);
      IntendedStep(init, x);
    }
  }

  /** The corrected loop over any input, finished, yields the corrected text. */
  lemma RunIntendedAnnotated(lines: seq<string>)
    ensures Finish(RunIntended(lines)) == AnnotatedIntended(lines)
  {
    RunIntendedIsIntended(lines);
    IntendedFinish(Parts(lines, IsFileHeader));
  }

  lemma IntendedFinish(secs: seq<Part>)
    requires secs != []
    ensures Finish(IntendedOf(secs)) == Join(JoinEach(OpenBlocks(secs)), "\n")
  {
    FinishSection(OpenBlocks(secs[..|secs| - 1]), secs[|secs| - 1]);
  }

  // ---------------------------------------------------------------------------
  // The corrected text keeps every change line
  // ---------------------------------------------------------------------------

  /** The lines of the blocks in order. */
  function Concat(blocks: seq<seq<string>>): seq<string>
  {
    if blocks == [] then [] else Concat(blocks[..|blocks| - 1]) + blocks[|blocks| - 1]
  }

  /** What one line of a section body puts into its hunks: the seed lines or its annotation. */
  function LineOut(x: string): seq<string>
  {
    if IsHunkHeader(x) then HunkSeed else [Annotate(x)]
  }

  /** A section body's hunk lines, line by line. */
  function HunkLines(body: seq<string>): seq<string>
  {
    if body == [] then [] else HunkLines(body[..|body| - 1]) + LineOut(body[|body| - 1])
  }

  lemma {:induction false} ConcatAppend(a: seq<seq<string>>, b: seq<seq<string>>)
    ensures Concat(a + b) == Concat(a) + Concat(b)
    decreases |b|
  {
    if b == [] {
      assert a + b == a;
    } else {
      var init, last := b[..|b| - 1], b[|b| - 1];
      assert b == init + [last];
      assert a + b == (a + init) + [last];
      ConcatAppend(a, init);
      ConcatSnoc(a + init, last);
      ConcatSnoc(init, last);
    }
  }

  lemma ConcatSnoc(a: seq<seq<string>>, h: seq<string>)
    ensures Concat(a + [h]) == Concat(a) + h
  {
    assert (a + [h])[..|a|] == a;
  }

  /** Extending the last block extends the lines. */
  lemma ConcatExtendLast(front: seq<seq<string>>, h: seq<string>, y: string)
    ensures Concat(front + [h + [y]]) == Concat(front + [h]) + [y]
  {
    ConcatSnoc(front, h);
    ConcatSnoc(front, h + [y]);
  }

  lemma ConcatHunksContent(body: seq<string>, x: string)
    requires !IsHunkHeader(x)
    ensures Concat(Hunks(body + [x])) == Concat(Hunks(body)) + [Annotate(x)]
  {
    HunksSnocContent(body, x);
    var hs := Hunks(body);
    if hs == [] {
      ConcatSnoc([], [Annotate(x)]);
      assert [] + [[Annotate(x)]] == [[Annotate(x)]];
    } else {
      var front, h := hs[..|hs| - 1], hs[|hs| - 1];
      assert hs == front + [h];
      ConcatExtendLast(front, h, Annotate(x));
    }
  }

  /** One more line of a section body adds what `LineOut` says to its hunks' lines. */
  lemma ConcatHunksSnoc(body: seq<string>, x: string)
    ensures Concat(Hunks(body + [x])) == Concat(Hunks(body)) + LineOut(x)
  {
    if IsHunkHeader(x) {
      HunksSnocHeader(body, x);
      ConcatSnoc(Hunks(body), HunkSeed);
    } else {
      ConcatHunksContent(body, x);
    }
  }

  /**
   * The hunks of a section body hold, in order, exactly the seed lines of each
   * hunk header and the annotation of each other line: cutting into hunks
   * loses no line.
   */
  lemma {:induction false} HunksFlatten(body: seq<string>)
    ensures Concat(Hunks(body)) == HunkLines(body)
    decreases |body|
  {
    if body == [] {
      HunksEmpty();
    } else {
      var init, x := body[..|body| - 1], body[|body| - 1];
      assert init + [x] == body;
      HunksFlatten(init);
      ConcatHunksSnoc(init, x);
    }
  }

  lemma SectionBlocksLines(cur: Part)
    ensures Concat(SectionBlocks(cur, false)) == HunkLines(cur.body) + Concat(MarkerBlock(cur.head))
  {
    ConcatAppend(Hunks(cur.body), MarkerBlock(cur.head));
    HunksFlatten(cur.body);
  }

  /** The lines of the corrected output: each section's hunk lines, then its marker. */
  lemma SectionLines(front: seq<Part>, cur: Part)
    ensures Concat(OpenBlocks(front + [cur]))
         == Concat(OpenBlocks(front)) + HunkLines(cur.body) + Concat(MarkerBlock(cur.head))
  {
    assert (front + [cur])[..|front|] == front;
    assert OpenBlocks(front + [cur]) == OpenBlocks(front) + SectionBlocks(cur, false);
    ConcatAppend(OpenBlocks(front), SectionBlocks(cur, false));
    SectionBlocksLines(cur);
  }

  /** The lines of the corrected output for `lines`. */
  function OutLines(lines: seq<string>): seq<string>
  {
    Concat(OpenBlocks(Parts(lines, IsFileHeader)))
  }

  /** A line that is neither a file header nor a hunk header: a change or context line. */
  predicate BodyLine(x: string)
  {
    !IsFileHeader(x) && !IsHunkHeader(x)
  }

  /** The annotations of the body lines of a diff, in order. */
  function BodyOut(lines: seq<string>): seq<string>
  {
    if lines == [] then []
    else
      var x := lines[|lines| - 1];
      BodyOut(lines[..|lines| - 1]) + (if BodyLine(x) then [Annotate(x)] else [])
  }

  /** Reading one more line keeps every line of the corrected output and adds the line's annotation. */
  lemma KeptAfter(lines: seq<string>, x: string)
    ensures multiset(OutLines(lines)) + multiset(if BodyLine(x) then [Annotate(x)] else [])
         <= multiset(OutLines(lines + [x]))
  {
    var secs := Parts(lines, IsFileHeader);
    if IsFileHeader(x) {
      PartsSnocHead(lines, x, IsFileHeader);
      SectionLines(secs, Part(Some(x), []));
    } else {
      var front := secs[..|secs| - 1];
      var cur := secs[|secs| - 1];
      assert secs == front + [cur];
      SectionLines(front, cur);
      PartsSnocBody(lines, x, IsFileHeader);
      var cur' := cur.(body := cur.body + [x]);
      SectionLines(front, cur');
      assert cur'.body[..|cur'.body| - 1] == cur.body;
      assert HunkLines(cur'.body) == HunkLines(cur.body) + LineOut(x);
    }
  }

  /** No block of the corrected output is empty: every hunk holds a line, and so does every marker block. */
  lemma {:induction false} OpenBlocksNonEmpty(secs: seq<Part>)
    ensures forall i :: 0 <= i < |OpenBlocks(secs)| ==> OpenBlocks(secs)[i] != []
    decreases |secs|
  {
    if secs != [] {
      var sec := secs[|secs| - 1];
      OpenBlocksNonEmpty(secs[..|secs| - 1]);
      HunksNonEmpty(Parts(sec.body, IsHunkHeader));
      MarkerBlockShape(sec.head);
    }
  }

  /**
   * Joining each non-empty block by newlines and then the texts by newlines is
   * joining all their lines by newlines.
   */
  lemma {:induction false} JoinConcat(bs: seq<seq<string>>)
    requires forall i :: 0 <= i < |bs| ==> bs[i] != []
    ensures Join(JoinEach(bs), "\n") == Join(Concat(bs), "\n")
    decreases |bs|
  {
    if bs != [] {
      var front, b := bs[..|bs| - 1], bs[|bs| - 1];
      assert bs == front + [b];
      JoinEachAppend(front, [b]);
      JoinEachOne(b);
      if front == [] {
        assert JoinEach(bs) == [Join(b, "\n")];
        assert Concat(bs) == Concat([]) + b == b;
      } else {
        JoinConcat(front);
        var last := front[|front| - 1];
        assert Concat(front) == Concat(front[..|front| - 1]) + last;
        JoinAppend(JoinEach(front), [Join(b, "\n")], "\n");
        ConcatSnoc(front, b);
        JoinAppend(Concat(front), b, "\n");
      }
    }
  }

  /** The corrected text is the lines of its blocks, joined by newlines. */
  lemma IntendedText(lines: seq<string>)
    ensures AnnotatedIntended(lines) == Join(OutLines(lines), "\n")
  {
    OpenBlocksNonEmpty(Parts(lines, IsFileHeader));
    JoinConcat(OpenBlocks(Parts(lines, IsFileHeader)));
  }

  /**
   * The evidently intended property: the annotation of every line that is
   * neither a file header nor a hunk header is among the lines of the
   * corrected output, as often as such lines occur.
   */
  lemma {:induction false} IntendedKeepsEveryLine(lines: seq<string>)
    ensures multiset(BodyOut(lines)) <= multiset(OutLines(lines))
    decreases |lines|
  {
    if lines != [] {
      var init, x := lines[..|lines| - 1], lines[|lines| - 1];
      assert init + [x] == lines;
      IntendedKeepsEveryLine(init);
      KeptAfter(init, x);
    }
  }

  /**
   * On a diff with no file header after its first line (a single file, or
   * text with no file header at all) the correction changes nothing: only a
   * section closed by a later file header loses a hunk as written.
   */
  lemma IntendedAgreesOnOneFile(lines: seq<string>)
    requires forall j :: 1 <= j < |lines| ==> !IsFileHeader(lines[j])
    ensures AnnotatedIntended(lines) == Annotated(lines)
  {
    if lines != [] && IsFileHeader(lines[0]) {
      var h, body := lines[0], lines[1..];
      assert [h] + body == lines;
      forall j | 0 <= j < |body|
        ensures !IsFileHeader(body[j])
      {
        assert body[j] == lines[j + 1];
      }
      PartsOfOneHead(h, body, IsFileHeader);
      OneFileBlocks(Part(Some(h), body));
    } else {
      PartsWithoutHead(lines, IsFileHeader);
      var secs := [Part(None, lines)];
      assert secs[..0] == [];
      assert OpenBlocks(secs) == DocumentBlocks(secs);
    }
  }

  /** With an empty leading part, both descriptions give the one section's hunks and marker. */
  lemma OneFileBlocks(sec: Part)
    ensures OpenBlocks([Part(None, []), sec]) == DocumentBlocks([Part(None, []), sec])
  {
    var secs := [Part(None, []), sec];
    assert secs[..1] == [Part(None, [])];
    assert [Part(None, [])][..0] == [];
    HunksEmpty();
    assert SectionBlocks(Part(None, []), false) == [];
    assert SectionBlocks(Part(None, []), true) == [];
  }

  /** The corrected outputs of the three sections of a two-file diff whose first part is empty. */
  lemma OpenBlocksOfTwo(sec1: Part, sec2: Part)
    ensures OpenBlocks([Part(None, []), sec1, sec2])
         == Hunks(sec1.body) + MarkerBlock(sec1.head) + Hunks(sec2.body) + MarkerBlock(sec2.head)
  {
    var secs := [Part(None, []), sec1, sec2];
    assert secs[..2] == [Part(None, []), sec1];
    assert secs[..2][..1] == [Part(None, [])];
    assert [Part(None, [])][..0] == [];
    HunksEmpty();
    assert SectionBlocks(Part(None, []), false) == [];
    assert OpenBlocks([Part(None, [])]) == [];
    assert OpenBlocks(secs[..2]) == SectionBlocks(sec1, false);
  }

  /** With the correction, a diff of two files keeps every hunk of both; each marker follows its file's hunks. */
  lemma IntendedTwoFiles(h1: string, path1: string, b1: seq<string>, h2: string, path2: string, b2: seq<string>)
    requires FileHeaderPath(h1) == Some(path1) && FileHeaderPath(h2) == Some(path2)
    requires forall j :: 0 <= j < |b1| ==> !IsFileHeader(b1[j])
    requires forall j :: 0 <= j < |b2| ==> !IsFileHeader(b2[j])
    ensures AnnotatedIntended([h1] + b1 + [h2] + b2) ==
      Join(JoinEach(Hunks(b1)) + [FileMarker(path1)] + JoinEach(Hunks(b2)) + [FileMarker(path2)], "\n")
  {
    PartsOfTwoHeads(h1, b1, h2, b2, IsFileHeader);
    OpenBlocksOfTwo(Part(Some(h1), b1), Part(Some(h2), b2));
    MarkerOf(h1, path1);
    MarkerOf(h2, path2);
    JoinEachFour(Hunks(b1), FileMarker(path1), Hunks(b2), FileMarker(path2));
  }

  /** How the texts associate; stated apart so that the solver meets it outside the large unfoldings of its callers. */
  lemma FourLines(h1: string, hh: string, x: string, h2: string)
    ensures [h1] + [hh, x] + [h2] + [] == [h1, hh, x, h2]
  {
  }

  /** How the texts associate; stated apart so that the solver meets it outside the large unfoldings of its callers. */
  lemma BlockTexts(j: string, m1: string, m2: string)
    ensures [j] + [m1] + JoinEach([]) + [m2] == [j, m1, m2]
  {
    assert JoinEach([]) == [];
  }

  /**
   * With the correction, the diff that loses its hunk as written keeps it:
   * one file with one hunk, then a second file header, gives the hunk and
   * then the two markers.
   */
  lemma IntendedDroppedHunk(h1: string, path1: string, hh: string, x: string, h2: string, path2: string)
    requires FileHeaderPath(h1) == Some(path1) && FileHeaderPath(h2) == Some(path2)
    requires IsHunkHeader(hh) && !IsFileHeader(hh) && !IsFileHeader(x) && !IsHunkHeader(x)
    ensures AnnotatedIntended([h1, hh, x, h2])
         == Join([Join(HunkSeed + [Annotate(x)], "\n"), FileMarker(path1), FileMarker(path2)], "\n")
  {
    FourLines(h1, hh, x, h2);
    IntendedTwoFiles(h1, path1, [hh, x], h2, path2, []);
    OneHunk(hh, x);
    HunksEmpty();
    JoinEachOne(HunkSeed + [Annotate(x)]);
    BlockTexts(Join(HunkSeed + [Annotate(x)], "\n"), FileMarker(path1), FileMarker(path2));
  }

  /** The example that loses its added line as written keeps it with the correction. */
  lemma IntendedDroppedHunkExample(h1: string, hh: string, add: string, h2: string)
    requires h1 == "diff --git a/x b/x" && hh == "@@ -1 +1 @@" && add == "+a" && h2 == "diff --git a/y b/y"
    ensures AnnotatedIntended([h1, hh, add, h2])
         == Join([Join(HunkSeed + ["a" + AddedSuffix], "\n"), FileMarker("x"), FileMarker("y")], "\n")
  {
    XHeader(h1);
    YHeader(h2);
    ShortHunkHeader(hh);
    AddedA(add);
    IntendedDroppedHunk(h1, "x", hh, add, h2, "y");
  }
}
