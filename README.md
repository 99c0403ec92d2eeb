# fetch_pr_diff in Dafny

A model of two pieces of `cursor-tools/fetch_pr_diff.py`, with proofs about them.

**`parse_diff`** turns the text of a unified diff into an annotated text for review:

- every file header `diff --git a/… b/…` becomes a marker line `## File: '<path>'`;
- every hunk header `@@ … @@` becomes the two seed lines `"\n@@ ... @@"` and `"__new hunk__"`;
- added and removed lines lose their sign and gain a suffix;
- hunks and file markers are flushed as blocks, and the blocks are joined by newlines.

**The owner/repo extraction of `get_repo`** reads `owner/repo` off the scheme and path of the remote URL.

The model has six modules:

- `Wrappers` (`wrappers.dfy`): `Option` and `Result`.
- `Text` (`text.dfy`): the Python string operations used. These are `startswith`, `sep.join`, `lstrip` and `strip` of one character (`strip` as its left and right halves), `split(c, 1)` unpacked into two names, and `split(c)`.
- `DiffSyntax` (`diff_syntax.dfy`): how one line is classified.
  - The two regular expressions become explicit predicates. In Python's `re`, `.` matches any character but a newline.
  - The greedy group 2 of the file-header pattern is the text after the *last* place group 1 can end.
  - The rewriting of added and removed lines.
- `DiffAnnotator` (`diff_annotator.dfy`): the loop of `parse_diff`.
  - `ParseDiff` is the loop as written: a method over a sequence of lines with `result`, `current_file` and `current_hunk` as local state.
  - `Step` and `Finish` are one iteration and the code after the loop.
  - `Annotated` describes the output by the shape of the input. The lines fall into file sections, and each section body falls into hunks. Each section contributes its hunks and then its marker, and a section closed by a later file header loses its open hunk.
  - `ParseDiff` is proved to compute `Annotated`. Its loop invariant is that the three variables equal `Run(lines[..i])`, the fold of `Step` over the lines seen so far. The lemma `RunIsExpected` proves that this fold equals the state read off the shape of those lines.
- `DiffProperties` (`diff_properties.dfy`): what that description implies for whole inputs, and worked examples.
- `DiffIntended` (`diff_intended.dfy`): `parse_diff` with the dropped-hunk defect corrected (see Findings). The corrected output is proved to hold the annotation of every line that is neither a file header nor a hunk header. Header lines are replaced by markers and seed lines.
- `RepoId` (`repo_id.dfy`): the owner/repo extraction on the pair `(scheme, path)` that `urlparse` returns. It covers both rules, the two error exits, `replace('.git', '')`, and a corrected reading.

The comment at line 22 names the form `git@github.com:owner/repo.git`, whose owner is `owner`. The code does not return `owner/repo` for it. Python's `urlparse` gives that URL an empty scheme and the whole text as path, and line 25 then keeps `git@github.com` in the owner. The model follows the code; see Findings.

## Model

| member | source | states |
|---|---|---|
| DiffAnnotator.Step | cursor-tools/fetch_pr_diff.py:76-100 | one iteration of the loop; its meaning is given by `ExpectedStep`, and its fold by `RunIsExpected` |
| DiffAnnotator.Finish | cursor-tools/fetch_pr_diff.py:102-108 | the code after the loop; its meaning is given by `FinishSection` and `RunAnnotated` |
| DiffAnnotator.ParseDiff | cursor-tools/fetch_pr_diff.py:71-108 | for every list of lines, the loop's output is `Annotated(lines)`: each section gives its hunks, then its `## File:` marker; a section closed by a later file header loses its open hunk |
| DiffAnnotator.RunIsExpected | cursor-tools/fetch_pr_diff.py:76-100 | after any prefix of the input, the loop variables equal the state read off its shape: closed blocks flushed, the marker of the current file pending, its last hunk open |
| DiffAnnotator.RunAnnotated | cursor-tools/fetch_pr_diff.py:102-108 | flushing the open hunk, then the file, and joining gives `Annotated` |
| DiffAnnotator.ExpectedStep | cursor-tools/fetch_pr_diff.py:76-100 | one iteration maps the state for a prefix to the state for the prefix one line longer |
| DiffAnnotator.ExpectedOfFileHeader | cursor-tools/fetch_pr_diff.py:77-83 | a file header flushes the pending marker, opens a section with the new marker and drops the open hunk |
| DiffAnnotator.FileHeaderResult | cursor-tools/fetch_pr_diff.py:79-80 | what a file header appends is the marker of the section it closes, and nothing of its open hunk |
| DiffAnnotator.SectionHunkHeader | cursor-tools/fetch_pr_diff.py:85-90 | a hunk header flushes the open hunk, which is never empty, and opens one holding only the seed lines |
| DiffAnnotator.SectionContent | cursor-tools/fetch_pr_diff.py:92-100 | any other line is annotated onto the open hunk, opening an empty one when there is none |
| DiffAnnotator.ExpectedOfExtend | cursor-tools/fetch_pr_diff.py:85-100 | a line that is not a file header stays in the current section |
| DiffAnnotator.FinishSection | cursor-tools/fetch_pr_diff.py:102-108 | after the loop the open hunk comes out before the pending marker |
| DiffAnnotator.PartsShape | cursor-tools/fetch_pr_diff.py:77-93 | cutting lines at head lines is well formed: only the first part has no head, every later part starts at a head, and no head is left inside a body |
| DiffAnnotator.HunksNonEmpty | cursor-tools/fetch_pr_diff.py:89-93 | every hunk holds at least one line |
| DiffAnnotator.HunksSnocHeader | cursor-tools/fetch_pr_diff.py:85-90 | a hunk header adds exactly one hunk, the two seed lines; the header's own text is not kept |
| DiffAnnotator.HunksSnocContent | cursor-tools/fetch_pr_diff.py:92-100 | another line extends the last hunk by its annotation, or opens the implicit first hunk with it |
| DiffAnnotator.FlushBlocks | cursor-tools/fetch_pr_diff.py:87-88 | flushing the open hunk appends it as the next block |
| DiffAnnotator.FlushMarker | cursor-tools/fetch_pr_diff.py:79-80 | flushing the file accumulator appends the section's marker, or nothing before the first file header |
| DiffSyntax.FileHeaderPath | cursor-tools/fetch_pr_diff.py:77 | group 2 of the file-header pattern, or `None`; its meaning is given by `FileHeaderPathMeaning` |
| DiffSyntax.FileHeaderPathMeaning | cursor-tools/fetch_pr_diff.py:77 | a line matches `^diff --git a/(.+) b/(.+)` exactly when group 1 can end somewhere; group 2 then follows the last such place, is non-empty and newline-free |
| DiffSyntax.LastSeparator | cursor-tools/fetch_pr_diff.py:77 | the greedy group 1 ends at the largest admissible place, and none exists when `None` |
| DiffSyntax.LineRun | cursor-tools/fetch_pr_diff.py:77 | the greedy `(.+)` of group 2 takes the longest newline-free prefix |
| DiffSyntax.FileHeaderOf | cursor-tools/fetch_pr_diff.py:77-80 | `diff --git a/A b/B`, where B has no space, is a file header with path B |
| DiffSyntax.IsHunkHeader | cursor-tools/fetch_pr_diff.py:85 | whether the hunk-header pattern matches; its meaning is given by `IsHunkHeaderMeaning` |
| DiffSyntax.IsHunkHeaderMeaning | cursor-tools/fetch_pr_diff.py:85 | a line matches `^@@.*@@` exactly when it starts with `@@` and a second `@@` follows with no newline in between |
| DiffSyntax.HasCloseFrom | cursor-tools/fetch_pr_diff.py:85 | the scan finds a closing `@@` exactly when one exists |
| DiffSyntax.HunkHeaderOf | cursor-tools/fetch_pr_diff.py:85 | `@@` + newline-free text + `@@` + anything is a hunk header |
| DiffSyntax.Annotate | cursor-tools/fetch_pr_diff.py:95-100 | `+x` (not `+++`) becomes `x` plus the added suffix; `-x` (not `---`) becomes `x` plus the removed suffix; any other line is unchanged; the sign and text can be recovered |
| DiffSyntax.FileMarkerLinesKept | cursor-tools/fetch_pr_diff.py:95-100 | `+++` and `---` lines are appended unchanged |
| DiffProperties.FlattenParts | cursor-tools/fetch_pr_diff.py:76 | cutting into sections or hunks loses and reorders no line |
| DiffProperties.NoEmptyBlocks | cursor-tools/fetch_pr_diff.py:79-80 | no flushed block is empty, so the truthiness tests never skip a block |
| DiffProperties.ClosedBlocksNonEmpty | cursor-tools/fetch_pr_diff.py:87-88 | the blocks of closed sections are all non-empty |
| DiffProperties.PlainText | cursor-tools/fetch_pr_diff.py:92-108 | input without headers comes out annotated line by line and joined by newlines; empty input gives `""` |
| DiffProperties.PartsAfterHead | cursor-tools/fetch_pr_diff.py:77-83 | a run of lines without heads stays in the part its head opened |
| DiffProperties.PartsWithoutHead | cursor-tools/fetch_pr_diff.py:92-93 | lines without heads form one headless part |
| DiffProperties.SingleFile | cursor-tools/fetch_pr_diff.py:102-106 | a one-file diff gives its hunks, then its marker |
| DiffProperties.TwoFiles | cursor-tools/fetch_pr_diff.py:77-83 | in a two-file diff the first file loses its last hunk, and each marker follows its file's hunks |
| DiffProperties.OneHunk | cursor-tools/fetch_pr_diff.py:85-100 | a hunk header and one line make one hunk: the seed lines and the annotated line |
| DiffProperties.OneFileOneLine | cursor-tools/fetch_pr_diff.py:71-108 | one file, one hunk, one line: seed lines, annotated line, marker |
| DiffProperties.SingleFileExample | cursor-tools/fetch_pr_diff.py:71-108 | the concrete diff `x.py` / `@@ -1,1 +1,2 @@` / `+new` gives the seed lines, `new` plus the added suffix, and `## File: 'x.py'` |
| DiffProperties.DroppedHunk | cursor-tools/fetch_pr_diff.py:82 | one file with one hunk, then a second file header: the output is just the two markers |
| DiffProperties.DroppedHunkExample | cursor-tools/fetch_pr_diff.py:82 | the concrete diff `x` / `@@ -1 +1 @@` / `+a` / `y` gives only the two markers; the added line is lost |
| DiffProperties.MarkerOf | cursor-tools/fetch_pr_diff.py:80 | a file header contributes exactly one block, its marker |
| DiffIntended.StepIntended | cursor-tools/fetch_pr_diff.py:77-83 | one iteration with the correction: a file header flushes the open hunk, then the file; its meaning is given by `IntendedFileHeader` and `RunIntendedIsIntended` |
| DiffIntended.ParseDiffIntended | cursor-tools/fetch_pr_diff.py:71-108 | the corrected loop, which flushes the open hunk at a file header, computes `AnnotatedIntended`: every section gives all its hunks, then its marker. Its text is the newline join of `OutLines`, which holds the annotation of every line that is neither a file header nor a hunk header, as often as such lines occur |
| DiffIntended.RunIntendedIsIntended | cursor-tools/fetch_pr_diff.py:76-100 | the corrected loop's state after any prefix is read off its shape |
| DiffIntended.IntendedFileHeader | cursor-tools/fetch_pr_diff.py:77-83 | with the correction, a file header flushes the whole section: its open hunk, then its marker |
| DiffIntended.IntendedKeepsEveryLine | cursor-tools/fetch_pr_diff.py:92-100 | with the correction, the annotation of every line that is neither a file nor a hunk header is among the lines of the output blocks, as often as such lines occur |
| DiffIntended.IntendedText | cursor-tools/fetch_pr_diff.py:102-108 | the corrected text is exactly the lines of its blocks joined by newlines |
| DiffIntended.JoinConcat | cursor-tools/fetch_pr_diff.py:87-88 | joining each non-empty block by newlines, then the texts by newlines, is joining all their lines by newlines |
| DiffIntended.OpenBlocksNonEmpty | cursor-tools/fetch_pr_diff.py:87-88 | no block of the corrected output is empty |
| DiffIntended.HunksFlatten | cursor-tools/fetch_pr_diff.py:85-100 | a section's hunks hold, in order, the seed lines of each hunk header and the annotation of each other line |
| DiffIntended.IntendedTwoFiles | cursor-tools/fetch_pr_diff.py:77-83 | with the correction, a two-file diff keeps every hunk of both files |
| DiffIntended.IntendedDroppedHunk | cursor-tools/fetch_pr_diff.py:82 | the diff that loses its hunk as written gives, with the correction, the hunk and then the two markers |
| DiffIntended.IntendedDroppedHunkExample | cursor-tools/fetch_pr_diff.py:82 | the concrete example keeps `a` plus the added suffix with the correction |
| DiffIntended.IntendedAgreesOnOneFile | cursor-tools/fetch_pr_diff.py:71-108 | on a diff with no file header after its first line, a single file or headerless text, the correction changes nothing |
| Text.Join | cursor-tools/fetch_pr_diff.py:108 | `sep.join(parts)`; its meaning is given by `JoinCons` and `JoinAppend` |
| Text.JoinCons | cursor-tools/fetch_pr_diff.py:108 | joining a text in front of a non-empty list puts it and `sep` before the joined rest |
| Text.JoinAppend | cursor-tools/fetch_pr_diff.py:108 | joining two non-empty lists joins each and puts `sep` between them |
| Text.SplitFirst | cursor-tools/fetch_pr_diff.py:25-27 | `split(c, 1)` unpacks exactly when `c` occurs; the two names rebuild the text around its first `c` |
| Text.SplitFirstOf | cursor-tools/fetch_pr_diff.py:25 | the split is at the first `c` |
| Text.SplitOn | cursor-tools/fetch_pr_diff.py:30 | `split(c)` gives pieces without `c` that join back with `c` to the text; there is one piece exactly when `c` does not occur |
| Text.SplitOnFirst | cursor-tools/fetch_pr_diff.py:30 | the pieces of `a + c + b` are `a` followed by the pieces of `b` |
| Text.TrimLeft | cursor-tools/fetch_pr_diff.py:23 | `lstrip(c)` removes exactly the leading run of `c` |
| Text.TrimRight | cursor-tools/fetch_pr_diff.py:30 | the right half of `strip(c)`: removes exactly the trailing run of `c` |
| Text.Trim | cursor-tools/fetch_pr_diff.py:30 | `strip(c)` leaves a text that neither starts nor ends with `c`, never longer, and unchanged when no `c` is at either end |
| RepoId.OwnerRepo | cursor-tools/fetch_pr_diff.py:21-40 | the first rule fails, by the unpacking error, exactly when the stripped path has neither `:` nor `/`; the second rule fails, by the format error, exactly when the stripped path is one segment; the success value of the second rule, first two segments kept and the rest dropped, is stated by `SecondRule` |
| RepoId.Identifier | cursor-tools/fetch_pr_diff.py:38-40 | `f"{owner}/{repo}"` after the `.git` deletion: for an owner without `/`, it cuts back at its first `/` into the owner and the cleaned repo |
| RepoId.RemoveGit | cursor-tools/fetch_pr_diff.py:38 | `replace('.git', '')` never lengthens the text |
| RepoId.RemoveGitUnchanged | cursor-tools/fetch_pr_diff.py:38 | nothing is removed exactly when no `.git` occurs, and then the text is unchanged |
| RepoId.RemoveGitSuffix | cursor-tools/fetch_pr_diff.py:38 | a trailing `.git` after a name without `.git` is removed |
| RepoId.RemoveGitInfix | cursor-tools/fetch_pr_diff.py:38 | a `.git` inside a dot-free name is removed as well |
| RepoId.HttpsForm | cursor-tools/fetch_pr_diff.py:28-40 | `/owner/name.git` under a non-`ssh` scheme gives `owner/name` |
| RepoId.TwoSegmentPath | cursor-tools/fetch_pr_diff.py:29-32 | a two-segment path takes the first segment as owner and the second as repo |
| RepoId.SecondRule | cursor-tools/fetch_pr_diff.py:29-32 | under the second rule, whatever the path: when the stripped path has two or more segments, the identifier is made of the first two and the rest is dropped |
| RepoId.LongerPath | cursor-tools/fetch_pr_diff.py:29-32 | `/owner/repo/more` under a non-`ssh` scheme gives the identifier of `owner` and `repo`; the segments of `more` are dropped |
| RepoId.SplitMore | cursor-tools/fetch_pr_diff.py:30 | `owner/repo/more` splits into the two names, then the pieces of `more` |
| RepoId.PathSegments | cursor-tools/fetch_pr_diff.py:30 | `/owner/repo` strips to `owner/repo` and splits into the two names |
| RepoId.SshUrlForm | cursor-tools/fetch_pr_diff.py:21-27 | under scheme `ssh`, `/owner/repo` is cut at its first `/` after the leading one |
| RepoId.ScpForm | cursor-tools/fetch_pr_diff.py:21-25 | a path `host:rest` is cut at its `:`, and everything before it, host included, becomes the owner |
| RepoId.ScpKeepsHost | cursor-tools/fetch_pr_diff.py:21-40 | `host:owner/name.git` gives `host/owner/name` |
| RepoId.ScpKeepsHostExample | cursor-tools/fetch_pr_diff.py:21-40 | `git@github.com:octocat/Hello-World.git`, with empty scheme, gives `git@github.com/octocat/Hello-World` |
| RepoId.InfixGitRemoved | cursor-tools/fetch_pr_diff.py:38 | `/owner/a.gitb` gives `owner/ab`: a `.git` inside the name is removed |
| RepoId.InfixGitRemovedExample | cursor-tools/fetch_pr_diff.py:38 | `/octocat/my.github-tool` gives `octocat/myhub-tool` |
| RepoId.OwnerRepoIntended | cursor-tools/fetch_pr_diff.py:22-37 | the corrected reading fails exactly when the path after the host has a single segment |
| RepoId.StripGitSuffix | cursor-tools/fetch_pr_diff.py:37-38 | removes `.git` only when the name ends with it |
| RepoId.StripGitSuffixOf | cursor-tools/fetch_pr_diff.py:37-38 | whatever the name holds, a trailing `.git` is what goes |
| RepoId.IntendedScpForm | cursor-tools/fetch_pr_diff.py:22-27 | with the correction, `host:owner/name.git` gives `owner/name` |
| RepoId.IntendedHttpsForm | cursor-tools/fetch_pr_diff.py:29-32 | with the correction, `/owner/name.git` gives `owner/name`, whatever the name holds |
| RepoId.IntendedKeepsName | cursor-tools/fetch_pr_diff.py:37-38 | with the correction, a name not ending in `.git` is kept whole, any `.git` inside it included |

## Left out

- The `git config` and `gh` process calls (lines 8, 44, 59), `get_pr_number` and `get_pr_diff` are left out. They call external programs.
- The `print` diagnostics and `exit(1)` (lines 9-14, 45-53, 60-68) are left out. Two error paths are modelled as `Failure` values:
  - the exit at lines 34-35 is `InvalidFormat`;
  - the `ValueError` that unpacking `split('/', 1)` raises when nothing can be unpacked (line 27) is `UnpackFailed`.
- `urlparse` (line 18) is not part of this model. Its `scheme` and `path` are the inputs of `OwnerRepo`.
- The `strip()` of the command output (line 15) is not modelled; it belongs to the process call.
- `splitlines()` (line 76) is not modelled: the diff is given as its sequence of lines.
- Python's `re` is not modelled beyond the two patterns. They are written out as predicates, with `.` matching anything but a newline.
- The `__main__` block (lines 110-116) only wires the calls together and prints, and is left out.
- DiffAnnotator.HunksSnocHeader: states that a hunk header's own text is not kept in the hunk structure. It does not state that this text is absent from the joined output, because another line may carry the same text.
- RepoId.OwnerRepoIntended: reads owner and repo after the first `:`, or from the whole path, whatever the scheme. It is a corrected reading, not the code's behaviour.

## Findings

| source | as written | input that shows it | evidently intended | confidence | as-written member | corrected member |
|---|---|---|---|---|---|---|
| cursor-tools/fetch_pr_diff.py:22-25 | an scp-style URL is cut at its `:`, so the user and host become the owner | `git@github.com:octocat/Hello-World.git`, empty scheme, gives `git@github.com/octocat/Hello-World` | `octocat/Hello-World`, following the comment's format `git@github.com:owner/repo.git` | not executed; high | RepoId.ScpKeepsHostExample | RepoId.IntendedScpForm |
| cursor-tools/fetch_pr_diff.py:37-38 | `replace('.git', '')` removes every `.git`, not only the extension | `https://github.com/octocat/my.github-tool` gives `octocat/myhub-tool` | `octocat/my.github-tool`: only a trailing `.git` is removed, as the comment "Remove .git extension" says | not executed; high | RepoId.InfixGitRemovedExample | RepoId.IntendedKeepsName |
| cursor-tools/fetch_pr_diff.py:82 | a file header sets `current_hunk` to `None` without flushing it, so the last hunk of every file but the final one is lost | `diff --git a/x b/x`, `@@ -1 +1 @@`, `+a`, `diff --git a/y b/y` gives only the two `## File:` markers | flush the open hunk first, as lines 102-103 do at the end of input | not executed; high | DiffProperties.DroppedHunkExample | DiffIntended.ParseDiffIntended |
