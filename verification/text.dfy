/** Optional values, standing in for Python's `None`. */
module Optional {

  datatype Option<+T> = None | Some(value: T)
}

/**
 String helpers with the semantics of the Python built-ins the program uses:
 `str.split`, `str.join`, `str.upper`/`str.lower` (ASCII letters only),
 `str.replace`, `str.zfill`, slicing, and the POSIX forms of
 `os.path.join`, `os.path.basename` and `os.path.dirname`.
 */
module Text {
  import opened Optional

  /** Python's `str.split(sep)` for a one-character separator. */
  function Split(s: string, sep: char): (parts: seq<string>)
    ensures |parts| >= 1
    ensures forall i :: 0 <= i < |parts| ==> sep !in parts[i]
    ensures |parts| == 1 <==> sep !in s
  {
    if |s| == 0 then [""]
    else
      var rest := Split(s[1..], sep);
      if s[0] == sep then [""] + rest
      else [[s[0]] + rest[0]] + rest[1..]
  }

  /** Python's `sep.join(parts)` for a non-empty list of parts. */
  function Join(parts: seq<string>, sep: char): string
    requires |parts| >= 1
  {
    if |parts| == 1 then parts[0] else parts[0] + [sep] + Join(parts[1..], sep)
  }

  lemma JoinCons(x: string, rest: seq<string>, sep: char)
    requires |rest| >= 1
    ensures Join([x + rest[0]] + rest[1..], sep) == x + Join(rest, sep)
  {
    var l := [x + rest[0]] + rest[1..];
    if |rest| > 1 {
      assert l[1..] == rest[1..];
    }
  }

  /** Joining the parts of a split gives back the original string. */
  lemma {:induction false} JoinSplit(s: string, sep: char)
    ensures Join(Split(s, sep), sep) == s
  {
    if |s| > 0 {
      JoinSplit(s[1..], sep);
      var rest := Split(s[1..], sep);
      if s[0] == sep {
        assert ([""] + rest)[1..] == rest;
      } else {
        JoinCons([s[0]], rest, sep);
      }
    }
  }

  /** A separator-free string splits into itself. */
  lemma {:induction false} SplitNoSep(a: string, sep: char)
    requires sep !in a
    ensures Split(a, sep) == [a]
  {
    if |a| > 0 {
      SplitNoSep(a[1..], sep);
      assert [a[0]] + a[1..] == a;
    }
  }

  /** A separator-free prefix becomes the first part. */
  lemma {:induction false} SplitPrefix(a: string, b: string, sep: char)
    requires sep !in a
    ensures Split(a + [sep] + b, sep) == [a] + Split(b, sep)
  {
    if |a| == 0 {
      assert a + [sep] + b == [sep] + b;
      assert ([sep] + b)[1..] == b;
    } else {
      assert (a + [sep] + b)[1..] == a[1..] + [sep] + b;
      SplitPrefix(a[1..], b, sep);
      assert [a[0]] + a[1..] == a;
    }
  }

  /** Splitting the join of separator-free parts gives back the parts. */
  lemma {:induction false} SplitJoin(parts: seq<string>, sep: char)
    requires |parts| >= 1
    requires forall i :: 0 <= i < |parts| ==> sep !in parts[i]
    ensures Split(Join(parts, sep), sep) == parts
  {
    if |parts| == 1 {
      SplitNoSep(parts[0], sep);
    } else {
      SplitJoin(parts[1..], sep);
      SplitPrefix(parts[0], Join(parts[1..], sep), sep);
      assert [parts[0]] + parts[1..] == parts;
    }
  }

  /** Every occurrence of `c` replaced by `d` (Python's `str.replace` on one character). */
  function ReplaceChar(s: string, c: char, d: char): (r: string)
    ensures |r| == |s|
    ensures forall i :: 0 <= i < |s| ==> r[i] == (if s[i] == c then d else s[i])
  {
    if |s| == 0 then "" else [if s[0] == c then d else s[0]] + ReplaceChar(s[1..], c, d)
  }

  /** Replacing the separator of two pieces that do not contain it replaces only that separator. */
  lemma ReplaceSeparator(a: string, b: string, c: char, d: char)
    requires c !in a && c !in b
    ensures ReplaceChar(a + [c] + b, c, d) == a + [d] + b
  {
    var s := a + [c] + b;
    var r := ReplaceChar(s, c, d);
    var t := a + [d] + b;
    forall i | 0 <= i < |t|
      ensures r[i] == t[i]
    {
      if i < |a| {
        assert s[i] == a[i] && t[i] == a[i];
      } else if i > |a| {
        assert s[i] == b[i - |a| - 1] && t[i] == b[i - |a| - 1];
      }
    }
  }

  /** Every occurrence of `c` removed (Python's `s.replace(c, '')`). */
  function RemoveChar(s: string, c: char): (r: string)
    ensures c !in r
    ensures forall x :: x != c ==> multiset(r)[x] == multiset(s)[x]
  {
    if |s| == 0 then ""
    else
      var rest := RemoveChar(s[1..], c);
      assert s == [s[0]] + s[1..];
      (if s[0] == c then "" else [s[0]]) + rest
  }

  /** A string without `c` is left as it is. */
  lemma {:induction false} RemoveCharAbsent(s: string, c: char)
    requires c !in s
    ensures RemoveChar(s, c) == s
  {
    if |s| > 0 {
      assert c !in s[1..];
      RemoveCharAbsent(s[1..], c);
      assert [s[0]] + s[1..] == s;
    }
  }

  /** Removing from a concatenation removes from each part, keeping the order. */
  lemma {:induction false} RemoveCharConcat(a: string, b: string, c: char)
    ensures RemoveChar(a + b, c) == RemoveChar(a, c) + RemoveChar(b, c)
  {
    if |a| > 0 {
      assert (a + b)[0] == a[0];
      assert (a + b)[1..] == a[1..] + b;
      RemoveCharConcat(a[1..], b, c);
    } else {
      assert a + b == b;
    }
  }

  /** Python's `s.replace(target, repl)`: leftmost, non-overlapping occurrences. */
  function ReplaceAll(s: string, target: string, repl: string): string
    requires |target| > 0
  {
    if |s| == 0 then ""
    else if target <= s then repl + ReplaceAll(s[|target|..], target, repl)
    else [s[0]] + ReplaceAll(s[1..], target, repl)
  }

  /** Removing a suffix that occurs nowhere else leaves exactly the stem. */
  lemma {:induction false} ReplaceAllSuffix(d: string, suffix: string)
    requires |suffix| > 0
    requires forall k :: 0 <= k < |d| ==> !(suffix <= (d + suffix)[k..])
    ensures ReplaceAll(d + suffix, suffix, "") == d
  {
    if |d| == 0 {
      assert d + suffix == suffix;
      assert suffix[|suffix|..] == "";
    } else {
      assert (d + suffix)[0..] == d + suffix;
      assert !(suffix <= d + suffix);
      assert (d + suffix)[1..] == d[1..] + suffix;
      forall k | 0 <= k < |d[1..]|
        ensures !(suffix <= (d[1..] + suffix)[k..])
      {
        assert (d[1..] + suffix)[k..] == (d + suffix)[k + 1..];
      }
      ReplaceAllSuffix(d[1..], suffix);
      assert [d[0]] + d[1..] == d;
    }
  }

  function UpperChar(c: char): char {
    if 'a' <= c <= 'z' then (c as int - 32) as char else c
  }

  function LowerChar(c: char): char {
    if 'A' <= c <= 'Z' then (c as int + 32) as char else c
  }

  /** `str.upper()` on ASCII letters. */
  function Upper(s: string): (r: string)
    ensures |r| == |s|
    ensures forall i :: 0 <= i < |s| ==> r[i] == UpperChar(s[i])
  {
    if |s| == 0 then "" else [UpperChar(s[0])] + Upper(s[1..])
  }

  /** `str.lower()` on ASCII letters. */
  function Lower(s: string): (r: string)
    ensures |r| == |s|
    ensures forall i :: 0 <= i < |s| ==> r[i] == LowerChar(s[i])
  {
    if |s| == 0 then "" else [LowerChar(s[0])] + Lower(s[1..])
  }

  /** Python's slice `s[1:]`, which is empty for an empty string. */
  function DropFirst(s: string): string {
    if |s| == 0 then "" else s[1..]
  }

  /** Python's slice `s[0:1]`. */
  function TakeFirst(s: string): string {
    if |s| == 0 then "" else s[..1]
  }

  function Zeros(n: nat): (r: string)
    ensures |r| == n
    ensures forall i :: 0 <= i < n ==> r[i] == '0'
  {
    seq(n, _ => '0')
  }

  /** Python's `s.zfill(width)`: pads with '0' on the left, after a leading sign, never truncates. */
  function ZFill(s: string, width: nat): (r: string)
    ensures |r| == if |s| >= width then |s| else width
    ensures |s| >= width ==> r == s
    ensures |s| < width && (|s| == 0 || (s[0] != '+' && s[0] != '-')) ==>
              r[|r| - |s|..] == s && forall i :: 0 <= i < |r| - |s| ==> r[i] == '0'
  {
    if |s| >= width then s
    else if |s| > 0 && (s[0] == '+' || s[0] == '-') then [s[0]] + Zeros(width - |s|) + s[1..]
    else Zeros(width - |s|) + s
  }

  /** Python's rendering of an optional attribute value in an f-string. */
  function Show(v: Option<string>): string {
    match v
    case Some(s) => s
    case None => "None"
  }

  /** Index of the last occurrence of `c` in `s`, if any. */
  function LastIndexOf(s: string, c: char): (r: Option<nat>)
    ensures r.None? <==> c !in s
    ensures r.Some? ==> r.value < |s| && s[r.value] == c && c !in s[r.value + 1..]
  {
    if |s| == 0 then None
    else if s[|s| - 1] == c then Some(|s| - 1)
    else
      var r := LastIndexOf(s[..|s| - 1], c);
      assert s == s[..|s| - 1] + [s[|s| - 1]];
      r
  }

  /** POSIX `os.path.join(a, b)`: an absolute `b` replaces `a`. */
  function PathJoin(a: string, b: string): string {
    if |b| > 0 && b[0] == '/' then b
    else if |a| == 0 || a[|a| - 1] == '/' then a + b
    else a + "/" + b
  }

  /** POSIX `os.path.basename`: what follows the last '/'. */
  function Basename(p: string): (r: string)
    ensures '/' !in r
    ensures '/' !in p ==> r == p
  {
    match LastIndexOf(p, '/')
    case None => p
    case Some(i) => p[i + 1..]
  }

  /** A position holding `c` with no `c` after it is the last occurrence. */
  lemma LastIndexAt(p: string, c: char, k: nat)
    requires k < |p| && p[k] == c && c !in p[k + 1..]
    ensures LastIndexOf(p, c) == Some(k)
  {
  }

  /** The name a file gets when joined onto a directory is its basename again. */
  lemma BasenameOfJoin(dir: string, name: string)
    requires '/' !in name
    ensures Basename(PathJoin(dir, name)) == name
  {
    var p := PathJoin(dir, name);
    if |dir| > 0 && dir[|dir| - 1] == '/' {
      assert p[|dir|..] == name;
      LastIndexAt(p, '/', |dir| - 1);
    } else if |dir| > 0 {
      assert p[|dir| + 1..] == name;
      LastIndexAt(p, '/', |dir|);
    }
  }

  function StripTrailingSlashes(s: string): (r: string)
    ensures |r| <= |s|
  {
    if |s| > 0 && s[|s| - 1] == '/' then StripTrailingSlashes(s[..|s| - 1]) else s
  }

  function AllSlashes(s: string): bool {
    forall i :: 0 <= i < |s| ==> s[i] == '/'
  }

  /** POSIX `os.path.dirname`: the head before the last '/', trailing slashes removed unless it is all slashes. */
  function Dirname(p: string): (r: string)
    ensures '/' !in p ==> r == ""
    ensures |r| <= |p|
  {
    match LastIndexOf(p, '/')
    case None => ""
    case Some(i) =>
      var head := p[..i + 1];
      if AllSlashes(head) then head else StripTrailingSlashes(head)
  }

  /** The folder a name is joined onto is the dirname of the joined path. */
  lemma DirnameOfJoin(dir: string, name: string)
    requires |dir| > 0 && dir[|dir| - 1] != '/'
    requires '/' !in name
    ensures Dirname(PathJoin(dir, name)) == dir
  {
    var p := PathJoin(dir, name);
    assert p == dir + "/" + name;
    assert p[|dir| + 1..] == name;
    LastIndexAt(p, '/', |dir|);
    var head := p[..|dir| + 1];
    assert head == dir + "/";
    assert !AllSlashes(head) by {
      assert head[|dir| - 1] == dir[|dir| - 1];
    }
    assert head[..|head| - 1] == dir;
    assert StripTrailingSlashes(dir) == dir;
    assert StripTrailingSlashes(head) == StripTrailingSlashes(dir);
  }
}
