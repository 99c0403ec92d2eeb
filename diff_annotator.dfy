/**
 * `parse_diff`: a single pass over the lines of a unified diff that builds the
 * annotated text. Two views of it are given and proved equal:
 *
 *  - the loop as the source runs it: `ParseDiff` keeps `result`, `currentFile`
 *    and `currentHunk`, and `Step` / `Finish` are what one iteration and the
 *    code after the loop do to them;
 *  - a description of the output by the shape of the input, `Annotated`: the
 *    diff falls into file sections (`Parts` cut at file headers), each section
 *    body into hunks (`Parts` cut at hunk headers), and every section
 *    contributes its hunks followed by its file marker, except that a section
 *    closed by a later file header loses its last hunk.
 */
module DiffAnnotator {
  import opened Wrappers
  import opened Text
  import opened DiffSyntax

  // ---------------------------------------------------------------------------
  // The loop, one line at a time
  // ---------------------------------------------------------------------------

  /** The three variables of the loop; an accumulator is `None` while the source holds `None`. */
  datatype State = State(result: seq<string>, currentFile: Option<seq<string>>, currentHunk: Option<seq<string>>)

  const Start := State([], None, None)

  /** Python's truth value of an optional list: present and non-empty. */
  predicate Truthy(acc: Option<seq<string>>)
  {
    acc.Some? && acc.value != []
  }

  /** `if acc: result.append("\n".join(acc))` */
  function Flush(result: seq<string>, acc: Option<seq<string>>): seq<string>
  {
    if Truthy(acc) then result + [Join(acc.value, "\n")] else result
  }

  /** `if current_hunk is None: current_hunk = []` */
  function HunkSoFar(acc: Option<seq<string>>): seq<string>
  {
    if acc.None? then [] else acc.value
  }

  /** One iteration of the `for` loop. */
  function Step(s: State, line: string): State
  {
    match FileHeaderPath(line)
    case Some(path) =>
      State(Flush(s.result, s.currentFile), Some([FileMarker(path)]), None)
    case None =>
      if IsHunkHeader(line) then
        State(Flush(s.result, s.currentHunk), s.currentFile, Some(HunkSeed))
      else
        State(s.result, s.currentFile, Some(HunkSoFar(s.currentHunk) + [Annotate(line)]))
  }

  /** The code after the loop: flush the hunk, then the file, and join the blocks. */
  function Finish(s: State): string
  {
    Join(Flush(Flush(s.result, s.currentHunk), s.currentFile), "\n")
  }

  // ---------------------------------------------------------------------------
  // The output described by the shape of the input
  // ---------------------------------------------------------------------------

  /** A run of lines opened by a head line (`None` for the run before the first head). */
  datatype Part = Part(head: Option<string>, body: seq<string>)

  /**
   * The lines cut at every line satisfying `isHead`: such a line opens a new
   * part; any other line joins the part open before it.
   */
  function Parts(lines: seq<string>, isHead: string -> bool): (ps: seq<Part>)
    ensures |ps| >= 1
  {
    if lines == [] then [Part(None, [])]
    else
      var ps := Parts(lines[..|lines| - 1], isHead);
      var x := lines[|lines| - 1];
      if isHead(x) then ps + [Part(Some(x), [])]
      else ps[..|ps| - 1] + [ps[|ps| - 1].(body := ps[|ps| - 1].body + [x])]
  }

  function HeadLines(head: Option<string>): seq<string>
  {
    if head.None? then [] else [head.value]
  }

  /** The lines of the parts again, heads included. */
  function Flatten(ps: seq<Part>): seq<string>
  {
    if ps == [] then [] else Flatten(ps[..|ps| - 1]) + HeadLines(ps[|ps| - 1].head) + ps[|ps| - 1].body
  }

  function AnnotateAll(lines: seq<string>): seq<string>
  {
    seq(|lines|, i requires 0 <= i < |lines| => Annotate(lines[i]))
  }

  /**
   * The hunk a part opens: a part opened by a hunk header holds the two seed
   * lines and its annotated lines; the part before the first header holds just
   * its annotated lines. The header's own text appears in neither.
   */
  function HunkOf(p: Part): seq<string>
  {
    (if p.head.None? then [] else HunkSeed) + AnnotateAll(p.body)
  }

  /** The hunks of the parts in order; the part before the first header makes none when it is empty. */
  function HunksOfParts(ps: seq<Part>): seq<seq<string>>
  {
    if ps == [] then []
    else
      var h := HunkOf(ps[|ps| - 1]);
      HunksOfParts(ps[..|ps| - 1]) + (if h == [] then [] else [h])
  }

  /** The hunks a section body opens, as lists of lines. */
  function Hunks(body: seq<string>): seq<seq<string>>
  {
    HunksOfParts(Parts(body, IsHunkHeader))
  }

  /** The marker of a section opened by a file header; the section before the first header has none. */
  function MarkerBlock(head: Option<string>): seq<seq<string>>
  {
    if head.None? then []
    else match FileHeaderPath(head.value)
      case Some(path) => [[FileMarker(path)]]
      case None => []
  }

  function DropLast<T>(s: seq<T>): seq<T>
  {
    if s == [] then [] else s[..|s| - 1]
  }

  /**
   * What one file section contributes: its hunks, then its marker. A section
   * that a later file header closes (`closed`) loses its last hunk.
   */
  function SectionBlocks(sec: Part, closed: bool): seq<seq<string>>
  {
    var hs := Hunks(sec.body);
    (if closed then DropLast(hs) else hs) + MarkerBlock(sec.head)
  }

  function ClosedBlocks(secs: seq<Part>): seq<seq<string>>
  {
    if secs == [] then [] else ClosedBlocks(secs[..|secs| - 1]) + SectionBlocks(secs[|secs| - 1], true)
  }

  /** Every section but the last is closed by the header of the next one. */
  function DocumentBlocks(secs: seq<Part>): seq<seq<string>>
    requires secs != []
  {
    ClosedBlocks(secs[..|secs| - 1]) + SectionBlocks(secs[|secs| - 1], false)
  }

  /** Each block joined into one text, as `"\n".join(block)` does when the block is flushed. */
  function JoinEach(blocks: seq<seq<string>>): seq<string>
  {
    seq(|blocks|, i requires 0 <= i < |blocks| => Join(blocks[i], "\n"))
  }

  /** The annotated text of a diff given as its lines. */
  function Annotated(lines: seq<string>): string
  {
    Join(JoinEach(DocumentBlocks(Parts(lines, IsFileHeader))), "\n")
  }

  /** The hunk still open after a section body: its last hunk, if it opened any. */
  function OpenHunk(hs: seq<seq<string>>): Option<seq<string>>
  {
    if hs == [] then None else Some(hs[|hs| - 1])
  }

  /** The file accumulator of a section: its marker line, if a file header opened it. */
  function FileAcc(head: Option<string>): Option<seq<string>>
  {
    var marker := MarkerBlock(head);
    if marker == [] then None else Some(marker[0])
  }

  /**
   * The loop's state while section `cur` is open and the blocks `prefix` have
   * been flushed before it: every hunk of `cur` but the last is flushed too.
   */
  function OpenSection(prefix: seq<seq<string>>, cur: Part): State
  {
    var hs := Hunks(cur.body);
    State(JoinEach(prefix + DropLast(hs)), FileAcc(cur.head), OpenHunk(hs))
  }

  /** The loop's state once `secs` have been read: the last section is still open. */
  function ExpectedOf(secs: seq<Part>): State
    requires secs != []
  {
    OpenSection(ClosedBlocks(secs[..|secs| - 1]), secs[|secs| - 1])
  }

  /** The loop's state after `lines`, read off the shape of `lines`. */
  function Expected(lines: seq<string>): State
  {
    ExpectedOf(Parts(lines, IsFileHeader))
  }

  // ---------------------------------------------------------------------------
  // The loop as the source writes it
  // ---------------------------------------------------------------------------

  /** `parse_diff(diff_text)` with `diff_text.splitlines()` given as `lines`. */
  method ParseDiff(lines: seq<string>) returns (out: string)
    ensures out == Annotated(lines)
  {
    var result: seq<string> := [];
    var currentFile: Option<seq<string>> := None;
    var currentHunk: Option<seq<string>> := None;
    for i := 0 to |lines|
      invariant State(result, currentFile, currentHunk) == Run(lines[..i])
    {
      var line := lines[i];
      assert lines[..i + 1][..i] == lines[..i];
      var fileMatch := FileHeaderPath(line);
      if fileMatch.Some? {
        if currentFile.Some? && currentFile.value != [] {
          result := result + [Join(currentFile.value, "\n")];
        }
        currentFile := Some([FileMarker(fileMatch.value)]);
        currentHunk := None;
      } else if IsHunkHeader(line) {
        if currentHunk.Some? && currentHunk.value != [] {
          result := result + [Join(currentHunk.value, "\n")];
        }
        currentHunk := Some(HunkSeed);
      } else {
        if currentHunk.None? {
          currentHunk := Some([]);
        }
        if StartsWith(line, "+") && !StartsWith(line, "+++") {
          currentHunk := Some(currentHunk.value + [line[1..] + AddedSuffix]);
        } else if StartsWith(line, "-") && !StartsWith(line, "---") {
          currentHunk := Some(currentHunk.value + [line[1..] + RemovedSuffix]);
        } else {
          currentHunk := Some(currentHunk.value + [line]);
        }
      }
    }
    if currentHunk.Some? && currentHunk.value != [] {
      result := result + [Join(currentHunk.value, "\n")];
    }
    if currentFile.Some? && currentFile.value != [] {
      result := result + [Join(currentFile.value, "\n")];
    }
    out := Join(result, "\n");
    assert lines[..|lines|] == lines;
    RunAnnotated(lines);
  }

  // ---------------------------------------------------------------------------
  // The two views agree
  // ---------------------------------------------------------------------------

  lemma JoinEachAppend(a: seq<seq<string>>, b: seq<seq<string>>)
    ensures JoinEach(a + b) == JoinEach(a) + JoinEach(b)
  {
  }

  /**
   * A well-formed cut: only the first part lacks a head, every later part is
   * opened by a head line, and no head line is left inside a body.
   */
  predicate WellCut(ps: seq<Part>, isHead: string -> bool)
  {
    && ps != [] && ps[0].head == None
    && (forall i :: 1 <= i < |ps| ==> ps[i].head.Some? && isHead(ps[i].head.value))
    && (forall i, j :: 0 <= i < |ps| && 0 <= j < |ps[i].body| ==> !isHead(ps[i].body[j]))
  }

  lemma WellCutHead(ps: seq<Part>, x: string, isHead: string -> bool)
    requires WellCut(ps, isHead) && isHead(x)
    ensures WellCut(ps + [Part(Some(x), [])], isHead)
  {
    var ps' := ps + [Part(Some(x), [])];
    forall i | 0 <= i < |ps|
      ensures ps'[i] == ps[i]
    {
    }
  }

  lemma WellCutBody(ps: seq<Part>, x: string, isHead: string -> bool)
    requires WellCut(ps, isHead) && !isHead(x)
    ensures WellCut(ps[..|ps| - 1] + [ps[|ps| - 1].(body := ps[|ps| - 1].body + [x])], isHead)
  {
    var n := |ps|;
    var last := ps[n - 1];
    var ps' := ps[..n - 1] + [last.(body := last.body + [x])];
    forall i | 0 <= i < n - 1
      ensures ps'[i] == ps[i]
    {
    }
    var body' := last.body + [x];
    assert ps'[n - 1] == last.(body := body');
    forall j | 0 <= j < |body'|
      ensures !isHead(body'[j])
    {
      if j < |last.body| {
        assert body'[j] == last.body[j];
      }
    }
  }

  /** Cutting any lines gives a well-formed cut. */
  lemma {:induction false} PartsShape(lines: seq<string>, isHead: string -> bool)
    ensures WellCut(Parts(lines, isHead), isHead)
    decreases |lines|
  {
    if lines != [] {
      var init, x := lines[..|lines| - 1], lines[|lines| - 1];
      PartsShape(init, isHead);
      if isHead(x) {
        WellCutHead(Parts(init, isHead), x, isHead);
      } else {
        WellCutBody(Parts(init, isHead), x, isHead);
      }
    }
  }

  /** Every hunk holds at least one line, so flushing it always appends a block. */
  lemma {:induction false} HunksNonEmpty(ps: seq<Part>)
    ensures forall i :: 0 <= i < |HunksOfParts(ps)| ==> HunksOfParts(ps)[i] != []
  {
    if ps != [] {
      HunksNonEmpty(ps[..|ps| - 1]);
    }
  }

  /** A head line opens a new, empty part. */
  lemma PartsSnocHead(lines: seq<string>, x: string, isHead: string -> bool)
    requires isHead(x)
    ensures Parts(lines + [x], isHead) == Parts(lines, isHead) + [Part(Some(x), [])]
  {
    assert (lines + [x])[..|lines|] == lines;
  }

  /** Any other line joins the last part. */
  lemma PartsSnocBody(lines: seq<string>, x: string, isHead: string -> bool)
    requires !isHead(x)
    ensures var ps := Parts(lines, isHead);
            Parts(lines + [x], isHead) == ps[..|ps| - 1] + [ps[|ps| - 1].(body := ps[|ps| - 1].body + [x])]
  {
    assert (lines + [x])[..|lines|] == lines;
  }

  lemma AnnotateAllSnoc(lines: seq<string>, x: string)
    ensures AnnotateAll(lines + [x]) == AnnotateAll(lines) + [Annotate(x)]
  {
    assert (lines + [x])[..|lines|] == lines;
  }

  /** A hunk header adds a hunk holding just the seed lines. */
  lemma HunksSnocHeader(body: seq<string>, x: string)
    requires IsHunkHeader(x)
    ensures Hunks(body + [x]) == Hunks(body) + [HunkSeed]
  {
    var ps := Parts(body, IsHunkHeader);
    PartsSnocHead(body, x, IsHunkHeader);
    var ps' := ps + [Part(Some(x), [])];
    assert ps'[..|ps'| - 1] == ps;
    assert HunkOf(Part(Some(x), [])) == HunkSeed;
  }

  lemma HunksOfPartsSnoc(front: seq<Part>, p: Part)
    ensures HunksOfParts(front + [p]) == HunksOfParts(front) + (if HunkOf(p) == [] then [] else [HunkOf(p)])
  {
    assert (front + [p])[..|front|] == front;
  }

  /** Only the part before the first head can make no hunk. */
  lemma EmptyHunkFirst(ps: seq<Part>)
    requires WellCut(ps, IsHunkHeader) && HunkOf(ps[|ps| - 1]) == []
    ensures |ps| == 1
  {
  }

  /** Any other line extends the last hunk, or opens the implicit one. */
  lemma HunksSnocContent(body: seq<string>, x: string)
    requires !IsHunkHeader(x)
    ensures var hs := Hunks(body);
            Hunks(body + [x]) == if hs == [] then [[Annotate(x)]] else hs[..|hs| - 1] + [hs[|hs| - 1] + [Annotate(x)]]
  {
    var ps := Parts(body, IsHunkHeader);
    PartsSnocBody(body, x, IsHunkHeader);
    var front := ps[..|ps| - 1];
    var last := ps[|ps| - 1];
    var last' := last.(body := last.body + [x]);
    assert ps == front + [last];
    assert Parts(body + [x], IsHunkHeader) == front + [last'];
    AnnotateAllSnoc(last.body, x);
    assert HunkOf(last') == HunkOf(last) + [Annotate(x)];
    HunksOfPartsSnoc(front, last);
    HunksOfPartsSnoc(front, last');
    var hs := Hunks(body);
    if HunkOf(last) == [] {
      PartsShape(body, IsHunkHeader);
      EmptyHunkFirst(ps);
      assert front == [];
      assert hs == [];
      assert HunkOf(last') == [Annotate(x)];
      assert HunksOfParts(front) == [];
    } else {
      assert hs == HunksOfParts(front) + [HunkOf(last)];
      assert hs[..|hs| - 1] == HunksOfParts(front);
    }
  }

  /** The marker of a section opened by a file header is one block of one line. */
  lemma MarkerBlockShape(head: Option<string>)
    ensures |MarkerBlock(head)| <= 1
    ensures MarkerBlock(head) != [] ==> MarkerBlock(head)[0] != []
  {
  }

  lemma FlushBlocks(prefix: seq<seq<string>>, hs: seq<seq<string>>)
    requires forall i :: 0 <= i < |hs| ==> hs[i] != []
    ensures Flush(JoinEach(prefix + DropLast(hs)), OpenHunk(hs)) == JoinEach(prefix + hs)
  {
    if hs != [] {
      assert prefix + hs == (prefix + DropLast(hs)) + [hs[|hs| - 1]];
      JoinEachAppend(prefix + DropLast(hs), [hs[|hs| - 1]]);
    }
  }

  /** The sections after a line that is not a file header: it joins the last section. */
  function Extend(secs: seq<Part>, x: string): seq<Part>
    requires secs != []
  {
    var cur := secs[|secs| - 1];
    secs[..|secs| - 1] + [cur.(body := cur.body + [x])]
  }

  /** Flushing a section's file accumulator appends its marker block. */
  lemma FlushMarker(prefix: seq<seq<string>>, head: Option<string>)
    ensures Flush(JoinEach(prefix), FileAcc(head)) == JoinEach(prefix + MarkerBlock(head))
  {
    MarkerBlockShape(head);
    JoinEachAppend(prefix, MarkerBlock(head));
    if MarkerBlock(head) == [] {
      assert prefix + MarkerBlock(head) == prefix;
    }
  }

  /** A file header closes the current section: its marker is flushed, its open hunk is not. */
  lemma ExpectedOfFileHeader(secs: seq<Part>, x: string)
    requires secs != [] && IsFileHeader(x)
    ensures Step(ExpectedOf(secs), x) == ExpectedOf(secs + [Part(Some(x), [])])
  {
    var s := ExpectedOf(secs);
    var secs' := secs + [Part(Some(x), [])];
    var path := FileHeaderPath(x).value;
    assert Step(s, x) == State(Flush(s.result, s.currentFile), Some([FileMarker(path)]), None);
    FileHeaderResult(secs, x);
    assert secs'[|secs'| - 1] == Part(Some(x), []);
    HunksEmpty();
    assert ExpectedOf(secs').currentFile == Some([FileMarker(path)]);
    assert ExpectedOf(secs').currentHunk == None;
  }

  lemma HunksEmpty()
    ensures Hunks([]) == []
  {
    assert Parts([], IsHunkHeader) == [Part(None, [])];
    assert AnnotateAll([]) == [] && HunkOf(Part(None, [])) == [];
    assert [Part(None, [])][..0] == [];
  }

  lemma FileHeaderResult(secs: seq<Part>, x: string)
    requires secs != []
    ensures var s := ExpectedOf(secs);
            ExpectedOf(secs + [Part(Some(x), [])]).result == Flush(s.result, s.currentFile)
  {
    var cur := secs[|secs| - 1];
    var hs := Hunks(cur.body);
    var closed := ClosedBlocks(secs[..|secs| - 1]);
    var secs' := secs + [Part(Some(x), [])];
    assert secs'[..|secs'| - 1] == secs && secs'[|secs'| - 1] == Part(Some(x), []);
    HunksEmpty();
    assert ExpectedOf(secs').result == JoinEach(ClosedBlocks(secs));
    assert ClosedBlocks(secs) == closed + DropLast(hs) + MarkerBlock(cur.head);
    FlushMarker(closed + DropLast(hs), cur.head);
  }

  /** A hunk header flushes the open hunk of the current section and opens a seeded one. */
  lemma SectionHunkHeader(prefix: seq<seq<string>>, cur: Part, x: string)
    requires !IsFileHeader(x) && IsHunkHeader(x)
    ensures Step(OpenSection(prefix, cur), x) == OpenSection(prefix, cur.(body := cur.body + [x]))
  {
    var hs := Hunks(cur.body);
    HunksSnocHeader(cur.body, x);
    HunksNonEmpty(Parts(cur.body, IsHunkHeader));
    FlushBlocks(prefix, hs);
    assert DropLast(hs + [HunkSeed]) == hs;
  }

  /** Any other line is annotated into the open hunk of the current section. */
  lemma SectionContent(prefix: seq<seq<string>>, cur: Part, x: string)
    requires !IsFileHeader(x) && !IsHunkHeader(x)
    ensures Step(OpenSection(prefix, cur), x) == OpenSection(prefix, cur.(body := cur.body + [x]))
  {
    HunksSnocContent(cur.body, x);
    OpenHunkSnocContent(cur.body, x);
  }

  lemma OpenHunkSnocContent(body: seq<string>, x: string)
    requires !IsHunkHeader(x)
    ensures OpenHunk(Hunks(body + [x])) == Some(HunkSoFar(OpenHunk(Hunks(body))) + [Annotate(x)])
  {
    HunksSnocContent(body, x);
    var hs := Hunks(body);
    if hs == [] {
      assert Hunks(body + [x]) == [[Annotate(x)]];
      assert HunkSoFar(OpenHunk(hs)) + [Annotate(x)] == [Annotate(x)];
    } else {
      var hs' := hs[..|hs| - 1] + [hs[|hs| - 1] + [Annotate(x)]];
      assert hs'[|hs'| - 1] == hs[|hs| - 1] + [Annotate(x)];
    }
  }

  /** A line that is not a file header stays in the open section. */
  lemma ExpectedOfExtend(secs: seq<Part>, x: string)
    requires secs != [] && !IsFileHeader(x)
    ensures Step(ExpectedOf(secs), x) == ExpectedOf(Extend(secs, x))
  {
    var cur := secs[|secs| - 1];
    var secs' := Extend(secs, x);
    assert secs'[..|secs'| - 1] == secs[..|secs| - 1];
    assert secs'[|secs'| - 1] == cur.(body := cur.body + [x]);
    if IsHunkHeader(x) {
      SectionHunkHeader(ClosedBlocks(secs[..|secs| - 1]), cur, x);
    } else {
      SectionContent(ClosedBlocks(secs[..|secs| - 1]), cur, x);
    }
  }

  /** One iteration of the loop takes the expected state of a prefix to that of the longer prefix. */
  lemma ExpectedStep(lines: seq<string>, x: string)
    ensures Step(Expected(lines), x) == Expected(lines + [x])
  {
    var secs := Parts(lines, IsFileHeader);
    if IsFileHeader(x) {
      PartsSnocHead(lines, x, IsFileHeader);
      ExpectedOfFileHeader(secs, x);
    } else {
      PartsSnocBody(lines, x, IsFileHeader);
      assert Parts(lines + [x], IsFileHeader) == Extend(secs, x);
      ExpectedOfExtend(secs, x);
    }
  }

  /** The code after the loop flushes the open hunk, then the file marker. */
  lemma FinishSection(prefix: seq<seq<string>>, cur: Part)
    ensures Finish(OpenSection(prefix, cur)) == Join(JoinEach(prefix + SectionBlocks(cur, false)), "\n")
  {
    var hs := Hunks(cur.body);
    var st := OpenSection(prefix, cur);
    HunksNonEmpty(Parts(cur.body, IsHunkHeader));
    FlushBlocks(prefix, hs);
    assert Flush(st.result, st.currentHunk) == JoinEach(prefix + hs);
    FlushMarker(prefix + hs, cur.head);
    assert prefix + SectionBlocks(cur, false) == prefix + hs + MarkerBlock(cur.head);
  }

  /** The code after the loop turns the expected state into the annotated text. */
  lemma FinishExpectedOf(secs: seq<Part>)
    requires secs != []
    ensures Finish(ExpectedOf(secs)) == Join(JoinEach(DocumentBlocks(secs)), "\n")
  {
    FinishSection(ClosedBlocks(secs[..|secs| - 1]), secs[|secs| - 1]);
  }

  /** The fold of `Step` over the lines, finished: the source's function, line by line. */
  function Run(lines: seq<string>): State
  {
    if lines == [] then Start else Step(Run(lines[..|lines| - 1]), lines[|lines| - 1])
  }

  lemma ExpectedEmpty()
    ensures Expected([]) == Start
  {
    HunksEmpty();
    assert Parts([], IsFileHeader) == [Part(None, [])];
    assert [Part(None, [])][..0] == [];
  }

  /** Running the loop over any input reaches the state read off the shape of the input. */
  lemma {:induction false} RunIsExpected(lines: seq<string>)
    ensures Run(lines) == Expected(lines)
    decreases |lines|
  {
    if lines == [] {
      ExpectedEmpty();
    } else {
      var init, x := lines[..|lines| - 1], lines[|lines| - 1];
      assert init + [x] == lines;
      RunIsExpected(init);
      ExpectedStep(init, x);
    }
  }

  /**
   * The main theorem: running the loop over any input and finishing yields
   * the text described by the shape of the input.
   */
  lemma RunAnnotated(lines: seq<string>)
    ensures Finish(Run(lines)) == Annotated(lines)
  {
    RunIsExpected(lines);
    FinishExpectedOf(Parts(lines, IsFileHeader));
  }
}
