/**
 An abstract filesystem standing in for `os.path.exists`, `os.path.isdir`,
 `os.listdir`, `open_file` (file_handler.py 399-410: text with line breaks removed,
 or None) and `glob.glob` with a `*`-only wildcard. Listings keep the order the
 directory yields, which is not sorted.
 */
module Files {
  import opened Optional
  import opened Text

  /** A directory entry. A file carries what `open_file` returns for it. */
  datatype Node = File(name: string, text: Option<string>) | Dir(name: string, children: seq<Node>)

  /** The entries below the root directory. */
  datatype Fs = Fs(top: seq<Node>)

  function NonEmptyParts(parts: seq<string>): (r: seq<string>)
    ensures forall i :: 0 <= i < |r| ==> |r[i]| > 0
  {
    if |parts| == 0 then []
    else (if |parts[0]| == 0 then [] else [parts[0]]) + NonEmptyParts(parts[1..])
  }

  /** Path segments: empty segments are dropped, so `a//b` and `a/b/` name `a/b`. */
  function Segments(p: string): seq<string> {
    NonEmptyParts(Split(p, '/'))
  }

  /** The first entry called `name`. */
  function Child(nodes: seq<Node>, name: string): (r: Option<Node>)
    ensures r.Some? ==> r.value in nodes && r.value.name == name
    ensures r.None? ==> forall i :: 0 <= i < |nodes| ==> nodes[i].name != name
  {
    if |nodes| == 0 then None
    else if nodes[0].name == name then Some(nodes[0])
    else Child(nodes[1..], name)
  }

  function Resolve(nodes: seq<Node>, segs: seq<string>): Option<Node>
    decreases |segs|
  {
    if |segs| == 0 then Some(Dir("", nodes))
    else match Child(nodes, segs[0])
      case None => None
      case Some(n) =>
        if |segs| == 1 then Some(n)
        else match n
          case Dir(_, children) => Resolve(children, segs[1..])
          case File(_, _) => None
  }

  /** The entry a path names; the empty path names nothing. */
  function Lookup(fs: Fs, p: string): Option<Node> {
    if |p| == 0 then None else Resolve(fs.top, Segments(p))
  }

  predicate Exists(fs: Fs, p: string) {
    Lookup(fs, p).Some?
  }

  predicate IsDir(fs: Fs, p: string) {
    Lookup(fs, p).Some? && Lookup(fs, p).value.Dir?
  }

  function Names(nodes: seq<Node>): (r: seq<string>)
    ensures |r| == |nodes|
    ensures forall i :: 0 <= i < |nodes| ==> r[i] == nodes[i].name
  {
    if |nodes| == 0 then [] else [nodes[0].name] + Names(nodes[1..])
  }

  /** `os.listdir`: entry names in listing order; None where it raises (not a directory). */
  function ListDir(fs: Fs, p: string): (r: Option<seq<string>>)
    ensures r.Some? <==> IsDir(fs, p)
  {
    match Lookup(fs, p)
    case Some(Dir(_, children)) => Some(Names(children))
    case _ => None
  }

  /** `open_file`: the text of a readable file, None for anything else. */
  function ReadText(fs: Fs, p: string): Option<string> {
    match Lookup(fs, p)
    case Some(File(_, text)) => text
    case _ => None
  }

  /** fnmatch with `*` as the only wildcard. */
  predicate Match(pattern: string, name: string)
    decreases |pattern| + |name|
  {
    if |pattern| == 0 then |name| == 0
    else if pattern[0] == '*' then Match(pattern[1..], name) || (|name| > 0 && Match(pattern, name[1..]))
    else |name| > 0 && name[0] == pattern[0] && Match(pattern[1..], name[1..])
  }

  /** A pattern without `*` matches exactly itself. */
  lemma {:induction false} MatchLiteral(pattern: string, name: string)
    requires '*' !in pattern
    ensures Match(pattern, name) <==> name == pattern
  {
    if |pattern| > 0 && |name| > 0 {
      MatchLiteral(pattern[1..], name[1..]);
      assert name == [name[0]] + name[1..];
      assert pattern == [pattern[0]] + pattern[1..];
    }
  }

  predicate StartsWith(s: string, l: string) {
    |l| <= |s| && s[..|l|] == l
  }

  predicate EndsWith(s: string, e: string) {
    |e| <= |s| && s[|s| - |e|..] == e
  }

  predicate OccursAt(s: string, m: string, i: nat) {
    i + |m| <= |s| && s[i..i + |m|] == m
  }

  /** A literal head of a pattern must be the head of the name. */
  lemma {:induction false} MatchLiteralHead(head: string, rest: string, name: string)
    requires '*' !in head
    ensures Match(head + rest, name) <==> StartsWith(name, head) && Match(rest, name[|head|..])
  {
    if |head| == 0 {
      assert head + rest == rest;
      assert name[0..] == name;
    } else {
      assert (head + rest)[0] == head[0];
      assert (head + rest)[1..] == head[1..] + rest;
      if |name| > 0 {
        MatchLiteralHead(head[1..], rest, name[1..]);
        if |head| <= |name| {
          assert name[1..][|head| - 1..] == name[|head|..];
          assert name[..|head|] == [name[0]] + name[1..][..|head| - 1];
          assert head == [head[0]] + head[1..];
        }
      }
    }
  }

  /** A leading `*` skips any number of characters. */
  lemma {:induction false} MatchStar(rest: string, name: string)
    ensures Match("*" + rest, name) <==> exists k :: 0 <= k <= |name| && Match(rest, name[k..])
    decreases |name|
  {
    var p := "*" + rest;
    assert p[0] == '*';
    assert p[1..] == rest;
    assert name[0..] == name;
    if |name| > 0 {
      MatchStar(rest, name[1..]);
      if Match(p, name) && !Match(rest, name) {
        var k :| 0 <= k <= |name[1..]| && Match(rest, name[1..][k..]);
        assert name[1..][k..] == name[k + 1..];
      }
      if exists k :: 0 <= k <= |name| && Match(rest, name[k..]) {
        var k :| 0 <= k <= |name| && Match(rest, name[k..]);
        if k > 0 {
          assert name[1..][k - 1..] == name[k..];
        }
      }
    }
  }

  /** `*<e>` with a literal `e` matches exactly the names ending in `e`. */
  lemma MatchEndsWith(e: string, name: string)
    requires '*' !in e
    ensures Match("*" + e, name) <==> EndsWith(name, e)
  {
    MatchStar(e, name);
    if Match("*" + e, name) {
      var k :| 0 <= k <= |name| && Match(e, name[k..]);
      MatchLiteral(e, name[k..]);
    }
    if EndsWith(name, e) {
      MatchLiteral(e, name[|name| - |e|..]);
    }
  }

  lemma EndsWithTail(name: string, k: nat, e: string)
    requires k <= |name|
    ensures EndsWith(name[k..], e) <==> |e| <= |name| - k && EndsWith(name, e)
  {
    if |e| <= |name| - k {
      assert name[k..][|name| - k - |e|..] == name[|name| - |e|..];
    }
  }

  /** `<l>*<e>` with literal `l` and `e`: the name starts with `l` and ends with `e`, without overlap. */
  lemma MatchHeadAndEnd(l: string, e: string, name: string)
    requires '*' !in l && '*' !in e
    ensures Match(l + "*" + e, name) <==>
              |l| + |e| <= |name| && StartsWith(name, l) && EndsWith(name, e)
  {
    var star := "*" + e;
    assert l + "*" + e == l + star;
    MatchLiteralHead(l, star, name);
    if StartsWith(name, l) {
      MatchEndsWith(e, name[|l|..]);
      EndsWithTail(name, |l|, e);
    }
  }

  lemma MatchHeadAndEndAt(m: string, e: string, name: string, k: nat)
    requires '*' !in m && '*' !in e
    requires k <= |name| && Match(m + "*" + e, name[k..])
    ensures EndsWith(name, e) && k + |m| + |e| <= |name| && OccursAt(name, m, k)
  {
    var t := name[k..];
    MatchHeadAndEnd(m, e, t);
    assert StartsWith(t, m) && EndsWith(t, e);
    EndsWithTail(name, k, e);
    assert t[..|m|] == name[k..k + |m|];
  }

  lemma MatchContainsAndEndOnly(m: string, e: string, name: string)
    requires '*' !in m && '*' !in e
    requires Match("*" + (m + "*" + e), name)
    ensures EndsWith(name, e) && exists i: nat :: i + |m| + |e| <= |name| && OccursAt(name, m, i)
  {
    MatchStar(m + "*" + e, name);
    var k: nat :| k <= |name| && Match(m + "*" + e, name[k..]);
    MatchHeadAndEndAt(m, e, name, k);
  }

  lemma MatchContainsAndEndIf(m: string, e: string, name: string, i: nat)
    requires '*' !in m && '*' !in e
    requires EndsWith(name, e) && i + |m| + |e| <= |name| && OccursAt(name, m, i)
    ensures Match("*" + (m + "*" + e), name)
  {
    MatchHeadAndEnd(m, e, name[i..]);
    EndsWithTail(name, i, e);
    assert name[i..][..|m|] == name[i..i + |m|];
    MatchStar(m + "*" + e, name);
  }

  lemma StarRegroup(m: string, e: string)
    ensures "*" + m + "*" + e == "*" + (m + "*" + e)
  {
  }

  /** `*<m>*<e>` with literal `m` and `e`: the name contains `m` somewhere before an ending `e`. */
  lemma MatchContainsAndEnd(m: string, e: string, name: string)
    requires '*' !in m && '*' !in e
    ensures Match("*" + m + "*" + e, name) <==>
              EndsWith(name, e) && exists i: nat :: i + |m| + |e| <= |name| && OccursAt(name, m, i)
  {
    StarRegroup(m, e);
    if Match("*" + (m + "*" + e), name) {
      MatchContainsAndEndOnly(m, e, name);
    }
    if EndsWith(name, e) && exists i: nat :: i + |m| + |e| <= |name| && OccursAt(name, m, i) {
      var i: nat :| i + |m| + |e| <= |name| && OccursAt(name, m, i);
      MatchContainsAndEndIf(m, e, name, i);
    }
  }

  /** glob hides names starting with '.' unless the pattern starts with '.' too. */
  predicate Visible(pattern: string, name: string) {
    |name| > 0 && name[0] == '.' ==> |pattern| > 0 && pattern[0] == '.'
  }

  predicate Accepts(pattern: string, name: string) {
    Visible(pattern, name) && Match(pattern, name)
  }

  /** The names a wildcard component selects from a listing, in listing order. */
  function Candidates(names: seq<string>, pattern: string): (r: seq<string>)
    ensures forall x :: x in r <==> x in names && Accepts(pattern, x)
    ensures |r| == 0 <==> forall i :: 0 <= i < |names| ==> !Accepts(pattern, names[i])
  {
    if |names| == 0 then []
    else (if Accepts(pattern, names[0]) then [names[0]] else []) + Candidates(names[1..], pattern)
  }

  /** The first candidate is the first accepted name of the listing. */
  lemma {:induction false} FirstCandidate(names: seq<string>, pattern: string, k: nat)
    requires k < |names| && Accepts(pattern, names[k])
    requires forall j :: 0 <= j < k ==> !Accepts(pattern, names[j])
    ensures |Candidates(names, pattern)| > 0 && Candidates(names, pattern)[0] == names[k]
  {
    if k > 0 {
      FirstCandidate(names[1..], pattern, k - 1);
    }
  }

  function JoinAll(dir: string, names: seq<string>): (r: seq<string>)
    ensures |r| == |names|
    ensures forall i :: 0 <= i < |names| ==> r[i] == PathJoin(dir, names[i])
  {
    if |names| == 0 then [] else [PathJoin(dir, names[0])] + JoinAll(dir, names[1..])
  }

  /**
   `glob.glob(pattern)`: without a wildcard, the pattern itself if it exists; with one,
   the accepted names of the listing of its directory part, joined onto it.
   */
  function Glob(fs: Fs, pattern: string): (r: seq<string>)
    ensures '*' !in pattern ==> (r == [pattern] <==> Exists(fs, pattern)) && (|r| == 0 <==> !Exists(fs, pattern))
  {
    if '*' !in pattern then (if Exists(fs, pattern) then [pattern] else [])
    else
      var dir := Dirname(pattern);
      match ListDir(fs, dir)
      case None => []
      case Some(names) => JoinAll(dir, Candidates(names, Basename(pattern)))
  }

  /**
   For a wildcard pattern, the head of the glob result is the directory part joined with
   the first name of its listing that the last component accepts.
   */
  lemma GlobHead(fs: Fs, pattern: string, k: nat)
    requires '*' in pattern
    requires ListDir(fs, Dirname(pattern)).Some?
    requires var names := ListDir(fs, Dirname(pattern)).value;
             k < |names| && Accepts(Basename(pattern), names[k]) &&
             forall j :: 0 <= j < k ==> !Accepts(Basename(pattern), names[j])
    ensures |Glob(fs, pattern)| > 0
    ensures Glob(fs, pattern)[0] == PathJoin(Dirname(pattern), ListDir(fs, Dirname(pattern)).value[k])
  {
    FirstCandidate(ListDir(fs, Dirname(pattern)).value, Basename(pattern), k);
  }

  /** A wildcard pattern finds nothing exactly when no listed name is accepted. */
  lemma GlobEmpty(fs: Fs, pattern: string)
    requires '*' in pattern
    ensures |Glob(fs, pattern)| == 0 <==>
              ListDir(fs, Dirname(pattern)).None? ||
              forall n :: n in ListDir(fs, Dirname(pattern)).value ==> !Accepts(Basename(pattern), n)
  {
  }
}
