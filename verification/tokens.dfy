/**
 The attribute searches of the runtime and project stages
 (file_handler.py lines 257, 272, 296 and 334): `re.search(r'Name="([^"]+)"', content)`
 and its first group. `prefix` stands for the literal text `Name="`; the value is a
 non-empty run of characters other than '"' that must be closed by a '"'.
 */
module Tokens {
  import opened Optional

  /** Length of the run of non-quote characters of `s` starting at `j`. */
  function RunLength(s: string, j: nat): (n: nat)
    requires j <= |s|
    ensures j + n <= |s|
    ensures forall k :: j <= k < j + n ==> s[k] != '"'
    ensures j + n < |s| ==> s[j + n] == '"'
    decreases |s| - j
  {
    if j == |s| || s[j] == '"' then 0 else 1 + RunLength(s, j + 1)
  }

  /** The group the pattern captures when the match starts at position `i`, if it matches there. */
  function ValueAt(s: string, prefix: string, i: nat): Option<string>
  {
    if i + |prefix| <= |s| && s[i..i + |prefix|] == prefix then
      var j := i + |prefix|;
      var n := RunLength(s, j);
      if n > 0 && j + n < |s| then Some(s[j..j + n]) else None
    else None
  }

  /** The text `prefix + v + '"'` stands at position `i`, with `v` non-empty and free of quotes. */
  ghost predicate TokenAt(s: string, prefix: string, i: nat, v: string)
  {
    && i + |prefix| + |v| < |s|
    && s[i..i + |prefix|] == prefix
    && |v| > 0 && '"' !in v
    && s[i + |prefix|..i + |prefix| + |v|] == v
    && s[i + |prefix| + |v|] == '"'
  }

  /** A quote-free stretch of length `m` closed by a quote is exactly the run at `j`. */
  lemma {:induction false} RunLengthExact(s: string, j: nat, m: nat)
    requires j + m < |s|
    requires forall k :: j <= k < j + m ==> s[k] != '"'
    requires s[j + m] == '"'
    ensures RunLength(s, j) == m
    decreases m
  {
    if m > 0 {
      RunLengthExact(s, j + 1, m - 1);
    }
  }

  /** What the matcher captures at `i` is exactly a token standing there (both directions). */
  lemma ValueAtIsToken(s: string, prefix: string, i: nat, v: string)
    ensures ValueAt(s, prefix, i) == Some(v) <==> TokenAt(s, prefix, i, v)
  {
    var j := i + |prefix|;
    if TokenAt(s, prefix, i, v) {
      forall k | j <= k < j + |v| ensures s[k] != '"' {
        assert s[k] == v[k - j];
      }
      RunLengthExact(s, j, |v|);
    }
    if ValueAt(s, prefix, i) == Some(v) {
      var n := RunLength(s, j);
      assert v == s[j..j + n];
      assert forall k :: 0 <= k < |v| ==> v[k] == s[j + k];
    }
  }

  /** The leftmost position at or after `i` where the pattern matches. */
  function FindFrom(s: string, prefix: string, i: nat): (r: Option<nat>)
    requires i <= |s|
    ensures r.Some? ==> i <= r.value < |s| && ValueAt(s, prefix, r.value).Some?
    ensures r.Some? ==> forall k :: i <= k < r.value ==> ValueAt(s, prefix, k).None?
    ensures r.None? ==> forall k :: i <= k ==> ValueAt(s, prefix, k).None?
    decreases |s| - i
  {
    if i == |s| then None
    else if ValueAt(s, prefix, i).Some? then Some(i)
    else FindFrom(s, prefix, i + 1)
  }

  /** `re.search` followed by `.group(1)`: the value of the leftmost match, or None. */
  function Search(s: string, prefix: string): (r: Option<string>)
    ensures r.None? <==> forall k: nat :: ValueAt(s, prefix, k).None?
    ensures r.Some? ==> exists i: nat :: ValueAt(s, prefix, i) == r && forall k: nat :: k < i ==> ValueAt(s, prefix, k).None?
  {
    match FindFrom(s, prefix, 0)
    case None => None
    case Some(i) => ValueAt(s, prefix, i)
  }

  /** No token anywhere in the text is exactly when the search finds nothing. */
  lemma SearchNoneIffNoToken(s: string, prefix: string)
    ensures Search(s, prefix).None? <==> forall k: nat, w :: !TokenAt(s, prefix, k, w)
  {
    if Search(s, prefix).None? {
      forall k: nat, w ensures !TokenAt(s, prefix, k, w) {
        ValueAtIsToken(s, prefix, k, w);
      }
    } else {
      var i: nat :| ValueAt(s, prefix, i) == Search(s, prefix);
      ValueAtIsToken(s, prefix, i, Search(s, prefix).value);
    }
  }

  /** A found value is the value of a token that no earlier token precedes. */
  lemma SearchIsFirstToken(s: string, prefix: string, v: string)
    requires Search(s, prefix) == Some(v)
    ensures exists i: nat :: TokenAt(s, prefix, i, v) && forall k: nat, w :: k < i ==> !TokenAt(s, prefix, k, w)
  {
    var i: nat :| ValueAt(s, prefix, i) == Some(v) && forall k: nat :: k < i ==> ValueAt(s, prefix, k).None?;
    ValueAtIsToken(s, prefix, i, v);
    forall k: nat, w | k < i ensures !TokenAt(s, prefix, k, w) {
      ValueAtIsToken(s, prefix, k, w);
    }
  }
}
