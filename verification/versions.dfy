/**
 Identifier derivation: the Automation Studio version key (file_handler.py 336-339),
 the runtime tag `M<major><minor>` (274-276) and the CPU-type translation through the
 ordered TRANSLATE table (233-235, 264-269).
 */
module Versions {
  import opened Optional
  import opened Text

  /**
   The configuration key of an Automation Studio version: with more than two
   dot-separated segments, the first two joined by '_'; otherwise the text unchanged.
   */
  function AsKey(raw: string): (key: string)
    ensures |raw| > 0 ==> |key| > 0
  {
    var parts := Split(raw, '.');
    if |parts| > 2 then ReplaceChar(Join(parts[..2], '.'), '.', '_') else raw
  }

  /** A version with at least two dots gives its first two segments joined by '_'. */
  lemma AsKeyOfLongVersion(a: string, b: string, rest: string)
    requires '.' !in a && '.' !in b
    ensures AsKey(a + "." + b + "." + rest) == a + "_" + b
  {
    var v := a + "." + b + "." + rest;
    assert v == a + ['.'] + (b + ['.'] + rest);
    SplitPrefix(a, b + ['.'] + rest, '.');
    SplitPrefix(b, rest, '.');
    var parts := Split(v, '.');
    assert parts == [a, b] + Split(rest, '.');
    assert parts[..2] == [a, b];
    assert Join([a, b], '.') == a + "." + b;
    ReplaceSeparator(a, b, '.', '_');
  }

  /** A version with fewer than two dots is its own key. */
  lemma AsKeyOfShortVersion(a: string, b: string)
    requires '.' !in a && '.' !in b
    ensures AsKey(a) == a
    ensures AsKey(a + "." + b) == a + "." + b
  {
    SplitNoSep(a, '.');
    assert a + "." + b == a + ['.'] + b;
    SplitPrefix(a, b, '.');
    SplitNoSep(b, '.');
  }

  /** "4.9.6.12" is keyed as "4_9". */
  lemma AsKeyExample()
    ensures AsKey("4.9.6.12") == "4_9"
  {
    assert "4.9.6.12" == "4" + "." + "9" + "." + "6.12";
    AsKeyOfLongVersion("4", "9", "6.12");
  }

  /**
   The runtime tag of an `AutomationRuntime Version` value: "M", the first segment
   without its first character left-padded with '0' to width 2, then the second
   segment. None stands for the IndexError raised when there is no second segment.
   */
  function RuntimeTag(version: string): (tag: Option<string>)
    ensures tag.Some? <==> '.' in version
    ensures tag.Some? ==> |tag.value| >= 3 && tag.value[0] == 'M'
  {
    var parts := Split(version, '.');
    if |parts| < 2 then None
    else Some("M" + ZFill(DropFirst(parts[0]), 2) + parts[1])
  }

  /** For `<c><major>.<minor>[.<more>]` the tag is "M" + zfill(major, 2) + minor. */
  lemma RuntimeTagOf(c: char, major: string, minor: string, tail: string)
    requires c != '.' && '.' !in major && '.' !in minor
    requires tail == "" || tail[0] == '.'
    ensures RuntimeTag([c] + major + "." + minor + tail) == Some("M" + ZFill(major, 2) + minor)
  {
    var v := [c] + major + "." + minor + tail;
    assert v == ([c] + major) + ['.'] + (minor + tail);
    SplitPrefix([c] + major, minor + tail, '.');
    if tail == "" {
      assert minor + tail == minor;
      SplitNoSep(minor, '.');
    } else {
      assert minor + tail == minor + ['.'] + tail[1..];
      SplitPrefix(minor, tail[1..], '.');
    }
    assert DropFirst([c] + major) == major;
  }

  /** "V4.34" gives "M0434": a one-digit major is padded, never truncated. */
  lemma RuntimeTagExample()
    ensures RuntimeTag("V4.34") == Some("M0434")
  {
    assert "V4.34" == ['V'] + "4" + "." + "34" + "";
    RuntimeTagOf('V', "4", "34", "");
    assert Zeros(1) == "0";
    assert ZFill("4", 2) == "04";
    assert "M" + "04" + "34" == "M0434";
  }

  /** A TRANSLATE entry: a CPU-type prefix and its replacement. */
  datatype Rule = Rule(pattern: string, replacement: string)

  /** The TRANSLATE items in configuration order, keys and values upper-cased (line 235). */
  function Table(items: seq<(string, string)>): (rules: seq<Rule>)
    ensures |rules| == |items|
    ensures forall i :: 0 <= i < |items| ==> rules[i].pattern == Upper(items[i].0)
    ensures forall i :: 0 <= i < |items| ==> rules[i].replacement == Upper(items[i].1)
  {
    if |items| == 0 then [] else [Rule(Upper(items[0].0), Upper(items[0].1))] + Table(items[1..])
  }

  /**
   Lines 264-269: every rule is tried in order against the CURRENT CPU type with a
   start-anchored match, and a match overwrites it (no `break`).
   */
  function Translate(cpu: string, rules: seq<Rule>): string
    decreases |rules|
  {
    if |rules| == 0 then cpu
    else Translate(if rules[0].pattern <= cpu then rules[0].replacement else cpu, rules[1..])
  }

  /** Appending a rule applies it to the value the earlier rules produced: later rules see rewrites, the last match wins. */
  lemma {:induction false} TranslateSnoc(cpu: string, rules: seq<Rule>, last: Rule)
    ensures Translate(cpu, rules + [last]) ==
            var prev := Translate(cpu, rules);
            if last.pattern <= prev then last.replacement else prev
    decreases |rules|
  {
    if |rules| == 0 {
      assert rules + [last] == [last];
    } else {
      assert (rules + [last])[1..] == rules[1..] + [last];
      var next := if rules[0].pattern <= cpu then rules[0].replacement else cpu;
      TranslateSnoc(next, rules[1..], last);
    }
  }

  /** A CPU type that no rule matches comes back unchanged. */
  lemma {:induction false} TranslateUnmatched(cpu: string, rules: seq<Rule>)
    requires forall i :: 0 <= i < |rules| ==> !(rules[i].pattern <= cpu)
    ensures Translate(cpu, rules) == cpu
    decreases |rules|
  {
    if |rules| > 0 {
      TranslateUnmatched(cpu, rules[1..]);
    }
  }

  /** The result is the input or the replacement of some rule. */
  lemma {:induction false} TranslateOrigin(cpu: string, rules: seq<Rule>)
    ensures var r := Translate(cpu, rules);
            r == cpu || exists i :: 0 <= i < |rules| && r == rules[i].replacement
    decreases |rules|
  {
    if |rules| > 0 {
      var next := if rules[0].pattern <= cpu then rules[0].replacement else cpu;
      TranslateOrigin(next, rules[1..]);
      var r := Translate(next, rules[1..]);
      if r != next {
        var i :| 0 <= i < |rules[1..]| && r == rules[1..][i].replacement;
        assert r == rules[i + 1].replacement;
      }
    }
  }

  /** Rules chain: the second rule matches the first one's replacement, so it wins. */
  lemma TranslateChainExample()
    ensures Translate("X20CP1484", [Rule("X20CP", "X20CP1584"), Rule("X20CP1584", "X20CP1586")]) == "X20CP1586"
  {
    var r1 := Rule("X20CP", "X20CP1584");
    var r2 := Rule("X20CP1584", "X20CP1586");
    assert r1.pattern <= "X20CP1484";
    assert r2.pattern <= r1.replacement;
    assert [r1, r2][1..] == [r2];
  }

  /**
   Only the TRANSLATE entries are upper-cased, not the CPU type read from `Cpu.pkg`: a
   lower-case type is not matched by the entry written in the same lower case.
   */
  lemma TranslateIsCaseSensitive()
    ensures Translate("x20cp1484", Table([("x20cp", "x20cp1584")])) == "x20cp1484"
  {
    assert Upper("x20cp") == "X20CP";
    assert !("X20CP" <= "x20cp1484");
  }
}
