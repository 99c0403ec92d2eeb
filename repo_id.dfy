/**
 * The owner/repo identifier `get_repo` derives from the remote URL, taken from
 * the point where `urlparse` has split the URL into a scheme and a path.
 *
 * Two rules share the work: an `ssh` scheme, or a path holding `:` (the form
 * `git@host:owner/repo.git`, which `urlparse` leaves entirely in the path),
 * cut the path once, at its first `:` or else its first `/`; any other path
 * is stripped of slashes and split on `/`, and needs two segments. Either
 * way every `.git` is then deleted from the repo part.
 */
module RepoId {
  import opened Wrappers
  import opened Text

  /** `exit(1)` after "Invalid repository URL format", and the `ValueError` of unpacking one piece into two names. */
  datatype RepoError = InvalidFormat | UnpackFailed

  // ---------------------------------------------------------------------------
  // `repo.replace('.git', '')`
  // ---------------------------------------------------------------------------

  predicate GitAt(s: string, i: int)
  {
    0 <= i && i + 4 <= |s| && s[i..i + 4] == ".git"
  }

  predicate HasGit(s: string)
  {
    exists i :: 0 <= i < |s| && GitAt(s, i)
  }

  /** Past a first character that starts no `.git`, the occurrences are those of the rest. */
  lemma HasGitTail(s: string)
    requires s != [] && !GitAt(s, 0)
    ensures HasGit(s) <==> HasGit(s[1..])
  {
    forall i | GitAt(s[1..], i)
      ensures GitAt(s, i + 1)
    {
      assert s[i + 1..i + 5] == s[1..][i..i + 4];
    }
    forall i | GitAt(s, i)
      ensures GitAt(s[1..], i - 1)
    {
      assert i != 0;
      assert s[i..i + 4] == s[1..][i - 1..i + 3];
    }
  }

  /** Every `.git` deleted, scanning from the left without overlaps, as Python's `str.replace` does. */
  function RemoveGit(s: string): (r: string)
    ensures |r| <= |s|
    decreases |s|
  {
    if |s| < 4 then s
    else if s[..4] == ".git" then RemoveGit(s[4..])
    else [s[0]] + RemoveGit(s[1..])
  }

  /** Nothing is deleted exactly when there is no `.git`, and then the text is unchanged. */
  lemma {:induction false} RemoveGitUnchanged(s: string)
    ensures |RemoveGit(s)| == |s| <==> !HasGit(s)
    ensures !HasGit(s) ==> RemoveGit(s) == s
    decreases |s|
  {
    if |s| < 4 {
    } else if s[..4] == ".git" {
      assert GitAt(s, 0);
    } else {
      HasGitTail(s);
      RemoveGitUnchanged(s[1..]);
      assert s == [s[0]] + s[1..];
    }
  }

  /** A name with no `.git` of its own loses exactly the `.git` appended to it. */
  lemma {:induction false} RemoveGitSuffix(name: string)
    requires !HasGit(name)
    ensures RemoveGit(name + ".git") == name
    decreases |name|
  {
    var s := name + ".git";
    if name == [] {
      assert s[..4] == ".git" && s[4..] == [];
    } else {
      assert !GitAt(name, 0);
      if |name| >= 4 {
        assert s[..4] == name[..4];
      } else {
        // a `.git` at 0 would run into the suffix, whose `.` is none of `g`, `i`, `t`
        assert s[|name|] == '.';
      }
      assert !GitAt(s, 0);
      assert s[1..] == name[1..] + ".git";
      HasGitTail(name);
      RemoveGitSuffix(name[1..]);
    }
  }

  /** A name without a dot holds no `.git`. */
  lemma NoDotNoGit(s: string)
    requires '.' !in s
    ensures !HasGit(s)
  {
    forall i | 0 <= i < |s|
      ensures !GitAt(s, i)
    {
      if i + 4 <= |s| {
        assert s[i..i + 4][0] == s[i];
      }
    }
  }

  // ---------------------------------------------------------------------------
  // get_repo, lines 21-40
  // ---------------------------------------------------------------------------

  /** The first rule applies: an `ssh` URL, or a path with a `:` in it. */
  predicate UsesFirstSeparator(scheme: string, path: string)
  {
    scheme == "ssh" || ':' in path
  }

  /**
   * `f"{owner}/{repo}"` after the `.git` deletion: when the owner has no `/`,
   * the identifier cuts back at its first `/` into the owner and the cleaned
   * repo, and it is never longer than the two names and the slash.
   */
  function Identifier(owner: string, repo: string): (r: string)
    ensures |r| <= |owner| + 1 + |repo|
    ensures '/' !in owner ==> SplitFirst(r, '/') == Some((owner, RemoveGit(repo)))
  {
    if '/' in owner then owner + "/" + RemoveGit(repo)
    else
      SplitFirstOf(owner, RemoveGit(repo), '/');
      owner + "/" + RemoveGit(repo)
  }

  /**
   * The identifier for the scheme and path of the remote URL, or the error the
   * source stops with. The first rule fails only when the path, less its
   * leading slashes, has neither a `:` nor a `/` to cut at; the second fails
   * exactly when the stripped path is a single segment.
   */
  function OwnerRepo(scheme: string, path: string): (r: Result<string, RepoError>)
    ensures r == Failure(UnpackFailed) <==>
      UsesFirstSeparator(scheme, path) && ':' !in TrimLeft(path, '/') && '/' !in TrimLeft(path, '/')
    ensures r == Failure(InvalidFormat) <==> !UsesFirstSeparator(scheme, path) && '/' !in Trim(path, '/')
  {
    if UsesFirstSeparator(scheme, path) then
      var p := TrimLeft(path, '/');
      match SplitFirst(p, ':')
      case Some((owner, repo)) => Success(Identifier(owner, repo))
      case None =>
        match SplitFirst(p, '/')
        case Some((owner, repo)) => Success(Identifier(owner, repo))
        case None => Failure(UnpackFailed)
    else
      var parts := SplitOn(Trim(path, '/'), '/');
      if |parts| >= 2 then Success(Identifier(parts[0], parts[1])) else Failure(InvalidFormat)
  }

  // ---------------------------------------------------------------------------
  // The URL forms
  // ---------------------------------------------------------------------------

  /** Stripping slashes leaves a text alone that neither starts nor ends with one, and removes one leading slash. */
  lemma TrimSlashes(x: string)
    requires x != [] && x[0] != '/' && x[|x| - 1] != '/'
    ensures TrimLeft(x, '/') == x && TrimLeft("/" + x, '/') == x
    ensures Trim(x, '/') == x && Trim("/" + x, '/') == x
  {
    assert ("/" + x)[1..] == x;
  }

  /** A text without `/` splits into itself. */
  lemma SplitOnNone(s: string, c: char)
    requires c !in s
    ensures SplitOn(s, c) == [s]
  {
    var parts := SplitOn(s, c);
    assert Join(parts, [c]) == parts[0];
  }

  /**
   * `https://host/owner/repo`: any scheme but `ssh`, a path of two segments;
   * the first is the owner and the second, less its `.git`s, the repo.
   */
  lemma TwoSegmentPath(scheme: string, owner: string, repo: string)
    requires scheme != "ssh"
    requires owner != [] && repo != []
    requires '/' !in owner && '/' !in repo && ':' !in owner && ':' !in repo
    ensures OwnerRepo(scheme, "/" + owner + "/" + repo) == Success(Identifier(owner, repo))
  {
    var path := "/" + owner + "/" + repo;
    PathSegments(owner, repo);
    assert !UsesFirstSeparator(scheme, path);
  }

  /** The path `/owner/repo` strips to `owner/repo`, which splits into the two names. */
  lemma PathSegments(owner: string, repo: string)
    requires owner != [] && repo != [] && '/' !in owner && '/' !in repo
    ensures Trim(owner + "/" + repo, '/') == owner + "/" + repo
    ensures Trim("/" + owner + "/" + repo, '/') == owner + "/" + repo
    ensures SplitOn(owner + "/" + repo, '/') == [owner, repo]
    ensures ':' !in owner && ':' !in repo ==> ':' !in "/" + owner + "/" + repo
  {
    var x := owner + "/" + repo;
    assert "/" + owner + "/" + repo == "/" + x;
    assert x[0] == owner[0] && x[|x| - 1] == repo[|repo| - 1];
    TrimSlashes(x);
    SplitTwo(owner, repo);
  }

  lemma SplitTwo(owner: string, repo: string)
    requires '/' !in owner && '/' !in repo
    ensures SplitOn(owner + "/" + repo, '/') == [owner, repo]
  {
    assert owner + "/" + repo == owner + ['/'] + repo;
    SplitOnFirst(owner, repo, '/');
    SplitOnNone(repo, '/');
  }

  /**
   * The second rule, whatever the path: when the stripped path has two or more
   * segments, the identifier is made of the first two and the rest is dropped.
   */
  lemma SecondRule(scheme: string, path: string)
    requires !UsesFirstSeparator(scheme, path)
    ensures var parts := SplitOn(Trim(path, '/'), '/');
      |parts| >= 2 ==> OwnerRepo(scheme, path) == Success(Identifier(parts[0], parts[1]))
  {
  }

  /**
   * `https://gitlab.com/group/sub/repo.git`: under any scheme but `ssh`, a path
   * of three or more segments gives its first two and drops the rest.
   */
  lemma LongerPath(scheme: string, owner: string, repo: string, more: string)
    requires scheme != "ssh"
    requires owner != [] && more != [] && more[|more| - 1] != '/'
    requires '/' !in owner && '/' !in repo
    requires ':' !in owner && ':' !in repo && ':' !in more
    ensures OwnerRepo(scheme, "/" + owner + "/" + repo + "/" + more) == Success(Identifier(owner, repo))
  {
    var path := "/" + owner + "/" + repo + "/" + more;
    LongerPathSegments(owner, repo, more);
    SecondRule(scheme, path);
  }

  /** The path `/owner/repo/more` strips to `owner/repo/more`, whose first two pieces are the two names. */
  lemma LongerPathSegments(owner: string, repo: string, more: string)
    requires owner != [] && more != [] && more[|more| - 1] != '/'
    requires '/' !in owner && '/' !in repo
    requires ':' !in owner && ':' !in repo && ':' !in more
    ensures var parts := SplitOn(Trim("/" + owner + "/" + repo + "/" + more, '/'), '/');
      |parts| >= 2 && parts[0] == owner && parts[1] == repo
    ensures ':' !in "/" + owner + "/" + repo + "/" + more
  {
    var x := owner + "/" + repo + "/" + more;
    LongerTexts(owner, repo, more);
    TrimSlashes(x);
    SplitMore(owner, repo, more);
  }

  /** How the texts of a longer path associate and end; stated apart so that the solver meets it outside the large unfoldings of its callers. */
  lemma LongerTexts(owner: string, repo: string, more: string)
    requires owner != [] && more != [] && more[|more| - 1] != '/'
    requires ':' !in owner && ':' !in repo && ':' !in more
    ensures var x := owner + "/" + repo + "/" + more;
      && "/" + owner + "/" + repo + "/" + more == "/" + x
      && x != [] && x[0] == owner[0] && x[|x| - 1] == more[|more| - 1]
      && ':' !in "/" + x
  {
  }

  /** `owner/repo/more` splits into the two names, then the pieces of `more`. */
  lemma SplitMore(owner: string, repo: string, more: string)
    requires '/' !in owner && '/' !in repo
    ensures SplitOn(owner + "/" + repo + "/" + more, '/') == [owner, repo] + SplitOn(more, '/')
  {
    var tail := repo + "/" + more;
    assert owner + "/" + repo + "/" + more == owner + ['/'] + tail;
    SplitOnFirst(owner, tail, '/');
    assert tail == repo + ['/'] + more;
    SplitOnFirst(repo, more, '/');
  }

  /** `https://github.com/octocat/Hello-World.git` gives `octocat/Hello-World`. */
  lemma HttpsForm(scheme: string, owner: string, name: string)
    requires scheme != "ssh"
    requires owner != [] && '/' !in owner && '/' !in name && ':' !in owner && ':' !in name
    requires !HasGit(name)
    ensures OwnerRepo(scheme, "/" + owner + "/" + name + ".git") == Success(owner + "/" + name)
  {
    HttpsTexts(owner, name);
    GitSuffixChars(name);
    TwoSegmentPath(scheme, owner, name + ".git");
    RemoveGitSuffix(name);
  }

  /** How the texts associate; stated apart so that the solver meets it outside the large unfoldings of its callers. */
  lemma HttpsTexts(owner: string, name: string)
    ensures "/" + owner + "/" + name + ".git" == "/" + owner + "/" + (name + ".git")
  {
  }

  /** Which characters the name holds; stated apart so that the solver meets it outside the large unfoldings of its callers. */
  lemma GitSuffixChars(name: string)
    requires '/' !in name && ':' !in name
    ensures '/' !in name + ".git" && ':' !in name + ".git"
  {
  }

  /** `ssh://git@host/owner/repo`: the path is cut at its first `/`, after the leading one. */
  lemma SshUrlForm(owner: string, repo: string)
    requires owner != [] && '/' !in owner && ':' !in owner && ':' !in repo
    ensures OwnerRepo("ssh", "/" + owner + "/" + repo) == Success(Identifier(owner, repo))
  {
    var x := owner + "/" + repo;
    assert "/" + owner + "/" + repo == "/" + x;
    LeadingSlashDropped(x);
    assert x == owner + ['/'] + repo;
    assert ':' !in x;
    SplitFirstOf(owner, repo, '/');
  }

  lemma LeadingSlashDropped(x: string)
    requires x != [] && x[0] != '/'
    ensures TrimLeft("/" + x, '/') == x
  {
    assert ("/" + x)[1..] == x;
  }

  /**
   * `git@host:owner/repo`: the path is cut at its `:`, so everything before
   * it, the user and host included, becomes the owner.
   */
  lemma ScpForm(scheme: string, host: string, rest: string)
    requires host != [] && host[0] != '/' && ':' !in host
    ensures OwnerRepo(scheme, host + ":" + rest) == Success(Identifier(host, rest))
  {
    var path := host + ":" + rest;
    assert path == host + [':'] + rest;
    assert path[0] == host[0];
    assert TrimLeft(path, '/') == path;
    SplitFirstOf(host, rest, ':');
  }

  // ---------------------------------------------------------------------------
  // What the two rules do to common URLs
  // ---------------------------------------------------------------------------

  /** How the texts of the scp-style form associate. */
  lemma ScpTexts(host: string, owner: string, name: string)
    ensures host + ":" + owner + "/" + name + ".git" == host + ":" + (owner + "/" + name + ".git")
    ensures host + "/" + owner + "/" + name == host + "/" + (owner + "/" + name)
  {
  }

  /** `git@host:owner/name.git` gives `git@host/owner/name`: the user and host stay in the owner. */
  lemma ScpKeepsHost(scheme: string, host: string, owner: string, name: string)
    requires host != [] && host[0] != '/' && ':' !in host
    requires !HasGit(owner + "/" + name)
    ensures OwnerRepo(scheme, host + ":" + owner + "/" + name + ".git") == Success(host + "/" + owner + "/" + name)
  {
    ScpTexts(host, owner, name);
    ScpForm(scheme, host, owner + "/" + name + ".git");
    RemoveGitSuffix(owner + "/" + name);
  }

  /** The common form `git@github.com:octocat/Hello-World.git` gives `git@github.com/octocat/Hello-World`. */
  lemma ScpKeepsHostExample(host: string, owner: string, name: string)
    requires host == "git@github.com" && owner == "octocat" && name == "Hello-World"
    ensures OwnerRepo("", host + ":" + owner + "/" + name + ".git") == Success(host + "/" + owner + "/" + name)
  {
    NoDotNoGit(owner + "/" + name);
    ScpKeepsHost("", host, owner, name);
  }

  /** A character other than a dot is kept, and the rest is scanned on its own. */
  lemma RemoveGitCons(c: char, t: string)
    requires c != '.'
    ensures RemoveGit([c] + t) == [c] + RemoveGit(t)
  {
    var s := [c] + t;
    assert s[0] == c && s[1..] == t;
    if |s| >= 4 {
      assert s[..4][0] == c;
    }
  }

  /** Text without a dot starts no `.git`, so it passes through and the rest is scanned on its own. */
  lemma {:induction false} RemoveGitAfter(a: string, rest: string)
    requires '.' !in a
    ensures RemoveGit(a + rest) == a + RemoveGit(rest)
    decreases |a|
  {
    if a == [] {
      assert a + rest == rest;
    } else {
      var c, a' := a[0], a[1..];
      assert a == [c] + a';
      assert a + rest == [c] + (a' + rest);
      RemoveGitCons(c, a' + rest);
      RemoveGitAfter(a', rest);
    }
  }

  /** A `.git` in the middle of a name goes as well: `my.github-tool` becomes `myhub-tool`. */
  lemma InfixGitRemoved(scheme: string, owner: string, a: string, b: string)
    requires scheme != "ssh"
    requires owner != [] && '/' !in owner && ':' !in owner
    requires '/' !in a + b && ':' !in a + b && '.' !in a + b
    ensures OwnerRepo(scheme, "/" + owner + "/" + a + ".git" + b) == Success(owner + "/" + a + b)
  {
    InfixTexts(owner, a, b);
    GitInfixChars(a, b);
    TwoSegmentPath(scheme, owner, a + ".git" + b);
    RemoveGitInfix(a, b);
  }

  /** How the texts associate; stated apart so that the solver meets it outside the large unfoldings of its callers. */
  lemma InfixTexts(owner: string, a: string, b: string)
    ensures "/" + owner + "/" + a + ".git" + b == "/" + owner + "/" + (a + ".git" + b)
    ensures owner + "/" + (a + b) == owner + "/" + a + b
  {
  }

  /** Which characters the name holds; stated apart so that the solver meets it outside the large unfoldings of its callers. */
  lemma GitInfixChars(a: string, b: string)
    requires '/' !in a + b && ':' !in a + b
    ensures '/' !in a + ".git" + b && ':' !in a + ".git" + b
  {
    assert forall ch :: ch in a + ".git" + b ==> ch in a + b || ch in ".git";
  }

  lemma RemoveGitInfix(a: string, b: string)
    requires '.' !in a + b
    ensures RemoveGit(a + ".git" + b) == a + b
  {
    assert '.' !in a && '.' !in b;
    assert a + ".git" + b == a + (".git" + b);
    RemoveGitAfter(a, ".git" + b);
    assert (".git" + b)[..4] == ".git" && (".git" + b)[4..] == b;
    NoDotNoGit(b);
    RemoveGitUnchanged(b);
  }

  lemma InfixGitRemovedExample(owner: string, a: string, b: string)
    requires owner == "octocat" && a == "my" && b == "hub-tool"
    ensures OwnerRepo("https", "/" + owner + "/" + a + ".git" + b) == Success(owner + "/" + a + b)
  {
    InfixGitRemoved("https", owner, a, b);
  }

  // ---------------------------------------------------------------------------
  // The identifier the comments describe
  // ---------------------------------------------------------------------------

  /** `.git` removed from the end only, as the comment "Remove .git extension" says. */
  function StripGitSuffix(repo: string): (r: string)
    ensures repo == r + ".git" || (r == repo && !(|repo| >= 4 && repo[|repo| - 4..] == ".git"))
  {
    if |repo| >= 4 && repo[|repo| - 4..] == ".git" then
      assert repo == repo[..|repo| - 4] + ".git";
      repo[..|repo| - 4]
    else repo
  }

  /** The part of the path the owner and repo are read from: what follows the first `:`, if any. */
  function RepoPath(path: string): string
  {
    match SplitFirst(path, ':')
    case Some((_, after)) => after
    case None => path
  }

  /**
   * The identifier as the comments describe it: for `git@host:owner/repo.git`
   * and for `https://host/owner/repo.git` alike, the first two segments after
   * the host, with a trailing `.git` removed.
   */
  function OwnerRepoIntended(path: string): (r: Result<string, RepoError>)
    ensures r.Failure? <==> '/' !in Trim(RepoPath(path), '/')
  {
    var parts := SplitOn(Trim(RepoPath(path), '/'), '/');
    if |parts| >= 2 then Success(parts[0] + "/" + StripGitSuffix(parts[1])) else Failure(InvalidFormat)
  }

  /** Whatever precedes it, a trailing `.git` is what goes. */
  lemma StripGitSuffixOf(name: string)
    ensures StripGitSuffix(name + ".git") == name
  {
    var repo := name + ".git";
    assert repo[|repo| - 4..] == ".git";
    assert repo[..|repo| - 4] == name;
  }

  lemma IntendedFromSegments(path: string, owner: string, repo: string)
    requires SplitOn(Trim(RepoPath(path), '/'), '/') == [owner, repo]
    ensures OwnerRepoIntended(path) == Success(owner + "/" + StripGitSuffix(repo))
  {
  }

  lemma IntendedOf(path: string, owner: string, name: string)
    requires SplitOn(Trim(RepoPath(path), '/'), '/') == [owner, name + ".git"]
    ensures OwnerRepoIntended(path) == Success(owner + "/" + name)
  {
    IntendedFromSegments(path, owner, name + ".git");
    StripGitSuffixOf(name);
  }

  /** `git@host:owner/name.git` gives `owner/name`, whatever the name holds. */
  lemma IntendedScpForm(host: string, owner: string, name: string)
    requires ':' !in host && owner != [] && '/' !in owner && '/' !in name
    ensures OwnerRepoIntended(host + ":" + owner + "/" + name + ".git") == Success(owner + "/" + name)
  {
    var repo := name + ".git";
    var path := host + ":" + owner + "/" + name + ".git";
    assert path == host + [':'] + (owner + "/" + repo);
    SplitFirstOf(host, owner + "/" + repo, ':');
    assert RepoPath(path) == owner + "/" + repo;
    assert '/' !in repo;
    PathSegments(owner, repo);
    IntendedOf(path, owner, name);
  }

  /** `https://host/owner/name.git` gives `owner/name`, whatever the name holds. */
  lemma IntendedHttpsForm(owner: string, name: string)
    requires owner != [] && '/' !in owner && '/' !in name && ':' !in owner && ':' !in name
    ensures OwnerRepoIntended("/" + owner + "/" + name + ".git") == Success(owner + "/" + name)
  {
    var path := "/" + owner + "/" + name + ".git";
    HttpsTexts(owner, name);
    GitSuffixChars(name);
    PathSegments(owner, name + ".git");
    RepoPathNoColon(path);
    IntendedOf(path, owner, name);
  }

  /** A name that does not end in `.git` is kept whole, `.git` inside it included. */
  lemma IntendedKeepsName(owner: string, repo: string)
    requires owner != [] && repo != [] && '/' !in owner && '/' !in repo && ':' !in owner && ':' !in repo
    requires !(|repo| >= 4 && repo[|repo| - 4..] == ".git")
    ensures OwnerRepoIntended("/" + owner + "/" + repo) == Success(owner + "/" + repo)
  {
    var path := "/" + owner + "/" + repo;
    PathSegments(owner, repo);
    RepoPathNoColon(path);
    IntendedFromSegments(path, owner, repo);
  }

  lemma RepoPathNoColon(path: string)
    requires ':' !in path
    ensures RepoPath(path) == path
  {
  }
}
