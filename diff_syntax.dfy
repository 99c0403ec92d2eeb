/**
 * How `parse_diff` classifies one line of a unified diff: the file-header regex
 * `^diff --git a/(.+) b/(.+)`, the hunk-header regex `^@@.*@@`, and the
 * rewriting of added and removed lines. In Python's `re`, `.` matches every
 * character except a newline; that is the meaning of `NoNewline` below.
 */
module DiffSyntax {
  import opened Wrappers
  import opened Text

  const FileHeaderPrefix := "diff --git a/"
  const AddedSuffix := " +new code line added in the PR"
  const RemovedSuffix := " -old code line removed in the PR"

  /** The two lines every hunk header opens a hunk with (the `@@ -a,b +c,d @@` text is not kept). */
  const HunkSeed: seq<string> := ["\n@@ ... @@", "__new hunk__"]

  /** The single line a file header contributes. */
  function FileMarker(path: string): string
  {
    "## File: '" + path + "'"
  }

  predicate NoNewline(s: string)
  {
    '\n' !in s
  }

  /**
   * In the text after `diff --git a/`, group 1 can end at `i`: it is non-empty
   * and newline-free, ` b/` follows it, and group 2 gets at least one character.
   */
  predicate SeparatorAt(rest: string, i: int)
  {
    1 <= i && i + 3 < |rest| && rest[i..i + 3] == " b/" && NoNewline(rest[..i]) && rest[i + 3] != '\n'
  }

  /** The greedy group 1 backtracks from the right: the largest place at or below `i` it can end. */
  function LastSeparator(rest: string, i: int): (r: Option<nat>)
    ensures r.Some? ==> r.value <= i && SeparatorAt(rest, r.value)
    ensures r.Some? ==> forall k :: r.value < k <= i ==> !SeparatorAt(rest, k)
    ensures r.None? ==> forall k :: k <= i ==> !SeparatorAt(rest, k)
    decreases i
  {
    if i < 1 then None
    else if SeparatorAt(rest, i) then Some(i)
    else LastSeparator(rest, i - 1)
  }

  /** The newline-free text at the start of `s`: what a greedy `.+` or `.*` consumes. */
  function LineRun(s: string): (r: string)
    ensures |r| <= |s| && r == s[..|r|] && NoNewline(r)
    ensures |r| == |s| || s[|r|] == '\n'
  {
    s[..IndexOf(s, '\n')]
  }

  /**
   * Group 2 of `^diff --git a/(.+) b/(.+)` when the line matches, else `None`:
   * the text after the last place group 1 can end, up to the end of the line
   * (or a newline).
   */
  function FileHeaderPath(line: string): Option<string>
  {
    if !StartsWith(line, FileHeaderPrefix) then None
    else
      var rest := line[|FileHeaderPrefix|..];
      match LastSeparator(rest, |rest|)
      case None => None
      case Some(k) => Some(LineRun(rest[k + 3..]))
  }

  /**
   * The line matches exactly when it starts with the prefix and group 1 can
   * end somewhere; group 2 then follows the last such place, is non-empty and
   * runs to the end of the line or to a newline.
   */
  lemma FileHeaderPathMeaning(line: string)
    ensures FileHeaderPath(line).Some? <==>
      StartsWith(line, FileHeaderPrefix) && exists k :: SeparatorAt(line[|FileHeaderPrefix|..], k)
    ensures FileHeaderPath(line).Some? ==>
      exists k :: && SeparatorAt(line[|FileHeaderPrefix|..], k)
                  && (forall j :: k < j ==> !SeparatorAt(line[|FileHeaderPrefix|..], j))
                  && FileHeaderPath(line).value == LineRun(line[|FileHeaderPrefix|..][k + 3..])
    ensures FileHeaderPath(line).Some? ==> FileHeaderPath(line).value != [] && NoNewline(FileHeaderPath(line).value)
  {
    if StartsWith(line, FileHeaderPrefix) {
      var rest := line[|FileHeaderPrefix|..];
      if LastSeparator(rest, |rest|).Some? {
        var k := LastSeparator(rest, |rest|).value;
        assert rest[k + 3..][0] == rest[k + 3];
      } else {
        forall k ensures !SeparatorAt(rest, k)
        {
          if k > |rest| {
          }
        }
      }
    }
  }

  predicate IsFileHeader(line: string)
  {
    FileHeaderPath(line).Some?
  }

  /** `@@` closes the hunk-header pattern at `k`: `.*` covers the newline-free text from 2 to `k`. */
  predicate CloseAt(line: string, k: int)
  {
    2 <= k && k + 2 <= |line| && line[k..k + 2] == "@@" && NoNewline(line[2..k])
  }

  /** Search for a closing `@@` from `j` on, while the text since index 2 is newline-free. */
  function HasCloseFrom(line: string, j: nat): (b: bool)
    requires 2 <= j <= |line| && NoNewline(line[2..j])
    ensures b <==> exists k :: j <= k && CloseAt(line, k)
    decreases |line| - j
  {
    if j + 2 > |line| then false
    else if line[j..j + 2] == "@@" then
      assert CloseAt(line, j);
      true
    else if line[j] == '\n' then
      assert forall k :: j < k <= |line| ==> line[j] in line[2..k];
      false
    else
      assert line[2..j + 1] == line[2..j] + [line[j]];
      HasCloseFrom(line, j + 1)
  }

  /** `re.match(r'^@@.*@@', line)` succeeds. */
  predicate IsHunkHeader(line: string)
  {
    StartsWith(line, "@@") && (assert line[2..2] == []; HasCloseFrom(line, 2))
  }

  /** The line starts with `@@`, and a second `@@` follows with no newline in between. */
  lemma IsHunkHeaderMeaning(line: string)
    ensures IsHunkHeader(line) <==> StartsWith(line, "@@") && exists k :: CloseAt(line, k)
  {
    if StartsWith(line, "@@") {
      assert line[2..2] == [];
      assert HasCloseFrom(line, 2) <==> exists k :: 2 <= k && CloseAt(line, k);
    }
  }

  /** The per-line rule of the loop for every line that is not a header. */
  datatype Change = Added | Removed | Kept

  function ChangeOf(line: string): Change
  {
    if StartsWith(line, "+") && !StartsWith(line, "+++") then Added
    else if StartsWith(line, "-") && !StartsWith(line, "---") then Removed
    else Kept
  }

  /**
   * The text a non-header line is appended as: an added or removed line loses
   * its leading sign and gains the matching suffix; any other line is kept.
   * Nothing is lost: the original line is the sign followed by the annotated
   * text without its suffix.
   */
  function Annotate(line: string): (r: string)
    ensures ChangeOf(line) == Added ==>
      |AddedSuffix| <= |r| && r[|r| - |AddedSuffix|..] == AddedSuffix && "+" + r[..|r| - |AddedSuffix|] == line
    ensures ChangeOf(line) == Removed ==>
      |RemovedSuffix| <= |r| && r[|r| - |RemovedSuffix|..] == RemovedSuffix && "-" + r[..|r| - |RemovedSuffix|] == line
    ensures ChangeOf(line) == Kept ==> r == line
  {
    match ChangeOf(line)
    case Added =>
      assert line == [line[0]] + line[1..];
      line[1..] + AddedSuffix
    case Removed =>
      assert line == [line[0]] + line[1..];
      line[1..] + RemovedSuffix
    case Kept => line
  }

  /** Lines starting with `+++` or `---` are exempt: they are never annotated. */
  lemma FileMarkerLinesKept(line: string)
    requires StartsWith(line, "+++") || StartsWith(line, "---")
    ensures Annotate(line) == line
  {
    assert line[..1] == line[..3][..1];
    assert line[0] == line[..3][0];
  }

  /** A header line built from two paths is recognised, with the second path as group 2. */
  lemma FileHeaderOf(a: string, b: string)
    requires a != [] && b != [] && NoNewline(a) && NoNewline(b) && ' ' !in b
    ensures FileHeaderPath(FileHeaderPrefix + a + " b/" + b) == Some(b)
  {
    var line := FileHeaderPrefix + a + " b/" + b;
    var rest := line[|FileHeaderPrefix|..];
    assert rest == a + " b/" + b;
    assert rest[..|a|] == a;
    assert rest[|a| + 3..] == b;
    assert SeparatorAt(rest, |a|);
    forall j | |a| < j
      ensures !SeparatorAt(rest, j)
    {
      if j + 3 < |rest| {
        assert rest[j..j + 3][0] == rest[j];
        if j == |a| + 1 {
          assert rest[j] == 'b';
        } else if j == |a| + 2 {
          assert rest[j] == '/';
        } else {
          assert rest[j] == b[j - |a| - 3];
        }
      }
    }
    assert LineRun(b) == b;
  }

  /** A line `@@` + text + `@@` + anything is a hunk header when the text is newline-free. */
  lemma HunkHeaderOf(middle: string, tail: string)
    requires NoNewline(middle)
    ensures IsHunkHeader("@@" + middle + "@@" + tail)
  {
    var line := "@@" + middle + "@@" + tail;
    assert line[2..2 + |middle|] == middle;
    assert line[2 + |middle|..4 + |middle|] == "@@";
    assert CloseAt(line, 2 + |middle|);
    IsHunkHeaderMeaning(line);
  }
}
