/**
 * The Python string operations the tool relies on, over `string` (a `seq<char>`):
 * `startswith`, `sep.join`, `lstrip`/`rstrip`/`strip` of one character, the first
 * index of a character and `split` on one character.
 */
module Text {
  import opened Wrappers

  /** `s.startswith(prefix)` */
  predicate StartsWith(s: string, prefix: string)
  {
    |prefix| <= |s| && s[..|prefix|] == prefix
  }

  /** `sep.join(parts)`: the parts with `sep` between neighbours. */
  function Join(parts: seq<string>, sep: string): string
  {
    if parts == [] then ""
    else if |parts| == 1 then parts[0]
    else parts[0] + sep + Join(parts[1..], sep)
  }

  lemma JoinCons(part: string, rest: seq<string>, sep: string)
    requires rest != []
    ensures Join([part] + rest, sep) == part + sep + Join(rest, sep)
  {
    assert ([part] + rest)[1..] == rest;
  }

  /** Joining two non-empty lists joins each and puts `sep` between the two texts. */
  lemma {:induction false} JoinAppend(a: seq<string>, b: seq<string>, sep: string)
    requires a != [] && b != []
    ensures Join(a + b, sep) == Join(a, sep) + sep + Join(b, sep)
    decreases |a|
  {
    if |a| == 1 {
      assert a + b == [a[0]] + b;
      JoinCons(a[0], b, sep);
    } else {
      JoinAppend(a[1..], b, sep);
      assert a + b == [a[0]] + (a[1..] + b);
      JoinCons(a[0], a[1..] + b, sep);
      assert [a[0]] + a[1..] == a;
      JoinCons(a[0], a[1..], sep);
    }
  }

  /** Putting `x` in front of the first part puts it in front of the joined text. */
  lemma JoinExtendFirst(x: char, parts: seq<string>, sep: string)
    requires parts != []
    ensures Join([[x] + parts[0]] + parts[1..], sep) == [x] + Join(parts, sep)
  {
    if |parts| > 1 {
      JoinCons(parts[0], parts[1..], sep);
      assert [parts[0]] + parts[1..] == parts;
      JoinCons([x] + parts[0], parts[1..], sep);
    }
  }

  /** The index of the first `c` in `s`, or `|s|` when there is none. */
  function IndexOf(s: string, c: char): (i: nat)
    ensures i <= |s|
    ensures c !in s[..i]
    ensures i < |s| ==> s[i] == c
    ensures i == |s| <==> c !in s
  {
    if s == [] then 0
    else if s[0] == c then 0
    else
      var i := 1 + IndexOf(s[1..], c);
      assert s[..i] == [s[0]] + s[1..][..i - 1];
      assert i == |s| ==> s == [s[0]] + s[1..];
      i
  }

  /**
   * `s.split(c, 1)` unpacked into two names: the text before the first `c` and
   * the text after it. There is nothing to unpack when `s` holds no `c`.
   */
  function SplitFirst(s: string, c: char): (r: Option<(string, string)>)
    ensures r.Some? <==> c in s
    ensures r.Some? ==> s == r.value.0 + [c] + r.value.1 && c !in r.value.0
  {
    var i := IndexOf(s, c);
    if i == |s| then None
    else
      assert s == s[..i] + [c] + s[i + 1..];
      Some((s[..i], s[i + 1..]))
  }

  /** The first `c` of `a + [c] + b` is the one after `a`, when `a` holds none. */
  lemma SplitFirstOf(a: string, b: string, c: char)
    requires c !in a
    ensures SplitFirst(a + [c] + b, c) == Some((a, b))
  {
    var s := a + [c] + b;
    var i := IndexOf(s, c);
    assert s[..|a|] == a && s[|a|] == c;
    assert s[i + 1..] == b;
  }

  /** `s.lstrip(c)`: `s` without its leading run of `c`. */
  function TrimLeft(s: string, c: char): (r: string)
    ensures |r| <= |s| && r == s[|s| - |r|..]
    ensures forall i :: 0 <= i < |s| - |r| ==> s[i] == c
    ensures r == [] || r[0] != c
  {
    if s != [] && s[0] == c then TrimLeft(s[1..], c) else s
  }

  /** `s.rstrip(c)`: `s` without its trailing run of `c`. */
  function TrimRight(s: string, c: char): (r: string)
    ensures |r| <= |s| && r == s[..|r|]
    ensures forall i :: |r| <= i < |s| ==> s[i] == c
    ensures r == [] || r[|r| - 1] != c
  {
    if s != [] && s[|s| - 1] == c then TrimRight(s[..|s| - 1], c) else s
  }

  /**
   * `s.strip(c)`: both runs removed. What is left neither starts nor ends with
   * `c`, and a text with no `c` at either end is left as it is.
   */
  function Trim(s: string, c: char): (r: string)
    ensures |r| <= |s|
    ensures r == [] || (r[0] != c && r[|r| - 1] != c)
    ensures (s == [] || (s[0] != c && s[|s| - 1] != c)) ==> r == s
  {
    var l := TrimLeft(s, c);
    assert l != [] ==> l[|l| - 1] == s[|s| - 1];
    TrimRight(l, c)
  }

  /**
   * `s.split(c)`: the pieces between the occurrences of `c`, so that joining
   * them back with `c` gives `s`; there is one piece more than there are `c`s.
   */
  function SplitOn(s: string, c: char): (parts: seq<string>)
    ensures |parts| >= 1
    ensures forall i :: 0 <= i < |parts| ==> c !in parts[i]
    ensures Join(parts, [c]) == s
    ensures |parts| == 1 <==> c !in s
  {
    if s == [] then [""]
    else
      var rest := SplitOn(s[1..], c);
      assert s == [s[0]] + s[1..];
      if s[0] == c then
        JoinCons("", rest, [c]);
        [""] + rest
      else
        JoinExtendFirst(s[0], rest, [c]);
        [[s[0]] + rest[0]] + rest[1..]
  }

  /** A separator first gives an empty piece first. */
  lemma SplitOnSep(t: string, c: char)
    ensures SplitOn([c] + t, c) == [""] + SplitOn(t, c)
  {
    assert ([c] + t)[1..] == t;
  }

  /** Any other character first joins the first piece. */
  lemma SplitOnCons(x: char, t: string, c: char)
    requires x != c
    ensures var rest := SplitOn(t, c); SplitOn([x] + t, c) == [[x] + rest[0]] + rest[1..]
  {
    assert ([x] + t)[1..] == t;
  }

  /** The pieces of `a + [c] + b` are `a` followed by the pieces of `b`, when `a` holds no `c`. */
  lemma {:induction false} SplitOnFirst(a: string, b: string, c: char)
    requires c !in a
    ensures SplitOn(a + [c] + b, c) == [a] + SplitOn(b, c)
    decreases |a|
  {
    if a == [] {
      assert a + [c] + b == [c] + b;
      SplitOnSep(b, c);
    } else {
      var x, a' := a[0], a[1..];
      assert a == [x] + a';
      assert a + [c] + b == [x] + (a' + [c] + b);
      SplitOnCons(x, a' + [c] + b, c);
      SplitOnFirst(a', b, c);
      var rest := [a'] + SplitOn(b, c);
      assert rest[0] == a' && rest[1..] == SplitOn(b, c);
    }
  }
}
