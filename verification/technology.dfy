/**
 `tech_file_handling` (file_handler.py 317-396): find the Automation Studio version in
 the project file, check its configured installation path, and add the first installer
 found for every technology package except `mapp`.
 */
module Technology {
  import opened Optional
  import opened Text
  import opened Files
  import opened Cancellation
  import opened Tokens
  import opened Versions
  import opened Setup

  /** The attribute the version search looks for (line 334). */
  const VersionToken := "AutomationStudio Version=\""

  /** `package.tag.split('}')[1]`; None stands for the IndexError of a tag without a namespace. */
  function PackageName(tag: string): (r: Option<string>)
    ensures r.Some? <==> '}' in tag
    ensures r.Some? ==> '}' !in r.value
  {
    var parts := Split(tag, '}');
    if |parts| < 2 then None else Some(parts[1])
  }

  /** A namespaced tag `{uri}name` gives its local name. */
  lemma PackageNameOf(uri: string, name: string)
    requires '}' !in uri && '}' !in name
    ensures PackageName("{" + uri + "}" + name) == Some(name)
  {
    assert "{" + uri + "}" + name == ("{" + uri) + ['}'] + name;
    SplitPrefix("{" + uri, name, '}');
    SplitNoSep(name, '}');
  }

  /** Packages the stage skips (line 377). */
  predicate IsMapp(name: string) {
    Lower(name) == "mapp"
  }

  /** Line 384: `<AS path>/Upgrades/AS<first char of key>_TP_<name>_<version>*.exe`. */
  function PackagePattern(asPath: string, key: string, name: string, version: Option<string>): string {
    PathJoin(PathJoin(asPath, "Upgrades"), "AS" + TakeFirst(key) + "_TP_" + name + "_" + Show(version) + "*.exe")
  }

  /** Package `p` has a name, is not `mapp`, and its installer pattern first matches `source`. */
  predicate Contributes(fs: Fs, asPath: string, key: string, p: Package, source: string) {
    match PackageName(p.tag)
    case None => false
    case Some(name) => !IsMapp(name) && FirstMatch(fs, PackagePattern(asPath, key, name, p.version)) == Some(source)
  }

  /**
   The package loop (lines 368-392): a poll before each package, then the name, the
   `mapp` check and the lookup. Every file written comes from a contributing package,
   and when the loop runs to the end every contributing package's file was written.
   */
  function Packages(env: Env, asPath: string, key: string, pkgs: seq<Package>, polls: nat): (r: Step)
    ensures r.value == Pair(Some(key), true) || r.value == Flag(false) || r.value == NoneValue
    ensures r.value == Flag(false) ==> SawFlag(env.cancel, r.polls)
    ensures |pkgs| > 0 && Cancelled(env.cancel, polls) ==> r == Step(Flag(false), [], polls + 1)
    ensures r.value == NoneValue ==> exists p :: p in pkgs && PackageName(p.tag).None?
    ensures forall i :: 0 <= i < |r.added| ==> r.added[i].folder == "Upgrades"
    ensures r.polls >= polls
    decreases |pkgs|
  {
    if |pkgs| == 0 then Step(Pair(Some(key), true), [], polls)
    else if Cancelled(env.cancel, polls) then Step(Flag(false), [], polls + 1)
    else
      var p := pkgs[0];
      match PackageName(p.tag)
      case None => Step(NoneValue, [], polls + 1)
      case Some(name) =>
        var rest := Packages(env, asPath, key, pkgs[1..], polls + 1);
        var found := if IsMapp(name) then None else FirstMatch(env.fs, PackagePattern(asPath, key, name, p.version));
        var mine := if found.Some? then [Item("Upgrades", found.value)] else [];
        Step(rest.value, mine + rest.added, rest.polls)
  }

  /** Some package of the list contributes `source`. */
  predicate ContributedBy(fs: Fs, asPath: string, key: string, pkgs: seq<Package>, source: string) {
    exists p :: p in pkgs && Contributes(fs, asPath, key, p, source)
  }

  /** Every file the loop writes is the first match of a contributing package. */
  lemma {:induction false} PackagesWriteContributors(env: Env, asPath: string, key: string, pkgs: seq<Package>, polls: nat)
    ensures forall i :: 0 <= i < |Packages(env, asPath, key, pkgs, polls).added| ==>
              ContributedBy(env.fs, asPath, key, pkgs, Packages(env, asPath, key, pkgs, polls).added[i].source)
    decreases |pkgs|
  {
    if |pkgs| > 0 && !Cancelled(env.cancel, polls) && PackageName(pkgs[0].tag).Some? {
      var rest := Packages(env, asPath, key, pkgs[1..], polls + 1);
      PackagesWriteContributors(env, asPath, key, pkgs[1..], polls + 1);
      var p := pkgs[0];
      var name := PackageName(p.tag).value;
      var found := if IsMapp(name) then None else FirstMatch(env.fs, PackagePattern(asPath, key, name, p.version));
      var mine := if found.Some? then [Item("Upgrades", found.value)] else [];
      if found.Some? {
        assert Contributes(env.fs, asPath, key, p, found.value);
      }
      ConsContributors(env.fs, asPath, key, pkgs, mine, rest.added);
    }
  }

  /** Writes by the first package followed by writes by the others all come from the list. */
  lemma ConsContributors(fs: Fs, asPath: string, key: string, pkgs: seq<Package>, mine: seq<Item>, rest: seq<Item>)
    requires |pkgs| > 0
    requires forall i :: 0 <= i < |mine| ==> Contributes(fs, asPath, key, pkgs[0], mine[i].source)
    requires forall i :: 0 <= i < |rest| ==> ContributedBy(fs, asPath, key, pkgs[1..], rest[i].source)
    ensures forall i :: 0 <= i < |mine + rest| ==> ContributedBy(fs, asPath, key, pkgs, (mine + rest)[i].source)
  {
    forall i | 0 <= i < |mine + rest| ensures ContributedBy(fs, asPath, key, pkgs, (mine + rest)[i].source) {
      if i < |mine| {
        assert pkgs[0] in pkgs;
      } else {
        TailContributor(fs, asPath, key, pkgs, rest[i - |mine|].source);
      }
    }
  }

  lemma TailContributor(fs: Fs, asPath: string, key: string, pkgs: seq<Package>, source: string)
    requires |pkgs| > 0 && ContributedBy(fs, asPath, key, pkgs[1..], source)
    ensures ContributedBy(fs, asPath, key, pkgs, source)
  {
    var q :| q in pkgs[1..] && Contributes(fs, asPath, key, q, source);
    assert q in pkgs;
  }

  /** When the loop runs to the end, every contributing package's file was written. */
  lemma {:induction false} PackagesWriteAllContributors(env: Env, asPath: string, key: string, pkgs: seq<Package>, polls: nat)
    requires Packages(env, asPath, key, pkgs, polls).value == Pair(Some(key), true)
    ensures forall p, s :: p in pkgs && Contributes(env.fs, asPath, key, p, s) ==>
              Item("Upgrades", s) in Packages(env, asPath, key, pkgs, polls).added
    decreases |pkgs|
  {
    if |pkgs| > 0 {
      PackagesWriteAllContributors(env, asPath, key, pkgs[1..], polls + 1);
      var p := pkgs[0];
      var name := PackageName(p.tag).value;
      var rest := Packages(env, asPath, key, pkgs[1..], polls + 1);
      var found := if IsMapp(name) then None else FirstMatch(env.fs, PackagePattern(asPath, key, name, p.version));
      var mine := if found.Some? then [Item("Upgrades", found.value)] else [];
      var r := Packages(env, asPath, key, pkgs, polls);
      assert r.added == mine + rest.added;
      forall q, s | q in pkgs && Contributes(env.fs, asPath, key, q, s) ensures Item("Upgrades", s) in r.added {
        if q == p {
          assert found == Some(s);
          assert r.added[0] == Item("Upgrades", s);
        } else {
          assert q in pkgs[1..];
          assert Item("Upgrades", s) in rest.added;
        }
      }
    }
  }

  /** Without cancellation the poll count does not matter. */
  lemma {:induction false} PackagesIgnorePolls(env: Env, asPath: string, key: string, pkgs: seq<Package>, a: nat, b: nat)
    requires env.cancel.Never?
    ensures Packages(env, asPath, key, pkgs, a).value == Packages(env, asPath, key, pkgs, b).value
    ensures Packages(env, asPath, key, pkgs, a).added == Packages(env, asPath, key, pkgs, b).added
    decreases |pkgs|
  {
    if |pkgs| == 0 {
    } else {
      match PackageName(pkgs[0].tag)
      case None =>
      case Some(name) =>
        PackagesIgnorePolls(env, asPath, key, pkgs[1..], a + 1, b + 1);
        var p := pkgs[0];
        var ra := Packages(env, asPath, key, pkgs[1..], a + 1);
        var rb := Packages(env, asPath, key, pkgs[1..], b + 1);
        var found := if IsMapp(name) then None else FirstMatch(env.fs, PackagePattern(asPath, key, name, p.version));
        var mine := if found.Some? then [Item("Upgrades", found.value)] else [];
        assert Packages(env, asPath, key, pkgs, a) == Step(ra.value, mine + ra.added, ra.polls);
        assert Packages(env, asPath, key, pkgs, b) == Step(rb.value, mine + rb.added, rb.polls);
      }
  }

  /** A `mapp` package is skipped: placing one in front of the others changes neither the result nor the writes. */
  lemma MappSkipped(env: Env, asPath: string, key: string, p: Package, pkgs: seq<Package>, polls: nat)
    requires env.cancel.Never?
    requires PackageName(p.tag).Some? && IsMapp(PackageName(p.tag).value)
    ensures Packages(env, asPath, key, [p] + pkgs, polls).value == Packages(env, asPath, key, pkgs, polls).value
    ensures Packages(env, asPath, key, [p] + pkgs, polls).added == Packages(env, asPath, key, pkgs, polls).added
  {
    assert ([p] + pkgs)[1..] == pkgs;
    PackagesIgnorePolls(env, asPath, key, pkgs, polls + 1, polls);
  }

  /**
   Cancellation only cuts the loop short: the writes are a prefix of those of the same
   loop never cancelled, and any result other than the bare False is that loop's result.
   */
  lemma {:induction false} PackagesCancelPrefix(env: Env, asPath: string, key: string, pkgs: seq<Package>, polls: nat)
    ensures Packages(env, asPath, key, pkgs, polls).added <= Packages(env.(cancel := Never), asPath, key, pkgs, polls).added
    ensures Packages(env, asPath, key, pkgs, polls).value != Flag(false) ==>
              Packages(env, asPath, key, pkgs, polls) == Packages(env.(cancel := Never), asPath, key, pkgs, polls)
    decreases |pkgs|
  {
    var e := env.(cancel := Never);
    if |pkgs| > 0 && !Cancelled(env.cancel, polls) && PackageName(pkgs[0].tag).Some? {
      PackagesCancelPrefix(env, asPath, key, pkgs[1..], polls + 1);
      var p := pkgs[0];
      var name := PackageName(p.tag).value;
      var rest := Packages(env, asPath, key, pkgs[1..], polls + 1);
      var nrest := Packages(e, asPath, key, pkgs[1..], polls + 1);
      var found := if IsMapp(name) then None else FirstMatch(env.fs, PackagePattern(asPath, key, name, p.version));
      var mine := if found.Some? then [Item("Upgrades", found.value)] else [];
      assert Packages(env, asPath, key, pkgs, polls) == Step(rest.value, mine + rest.added, rest.polls);
      assert Packages(e, asPath, key, pkgs, polls) == Step(nrest.value, mine + nrest.added, nrest.polls);
    }
  }

  /** The configured installation path of the key, when it exists on disk. */
  predicate Installed(env: Env, key: string) {
    Get(env.config, key).Some? && Exists(env.fs, Get(env.config, key).value)
  }

  /**
   The whole stage on the text of the project file (None when it could not be read).
   A tuple is returned for the version checks, a bare False on cancellation and None
   for every exception (unreadable text or XML, no `TechnologyPackages`, a tag without
   a namespace).
   */
  function Tech(env: Env, content: Option<string>, polls: nat): (r: Step)
    ensures r.value == Pair(None, false) <==>
              content.Some? && env.parse.project(content.value).Some? && Search(content.value, VersionToken).None?
    ensures r.value.Pair? && r.value.key.Some? ==>
              content.Some? && Search(content.value, VersionToken).Some? &&
              r.value.key.value == AsKey(Search(content.value, VersionToken).value)
    ensures r.value.Pair? && r.value.ok ==> r.value.key.Some? && Installed(env, r.value.key.value)
    ensures content.Some? && env.parse.project(content.value).Some? && Search(content.value, VersionToken).Some? &&
            !Installed(env, AsKey(Search(content.value, VersionToken).value)) ==>
              r == Step(Pair(Some(AsKey(Search(content.value, VersionToken).value)), false), [], polls)
    ensures r.value == Flag(false) ==> SawFlag(env.cancel, r.polls) && env.settings.technology
    ensures content.Some? && env.parse.project(content.value).Some? && Search(content.value, VersionToken).Some? &&
            Installed(env, AsKey(Search(content.value, VersionToken).value)) && env.settings.technology &&
            env.parse.project(content.value).value.packages.Some? && |env.parse.project(content.value).value.packages.value| > 0 &&
            Cancelled(env.cancel, polls) ==>
              r == Step(Flag(false), [], polls + 1)
    ensures !env.settings.technology ==> r.added == [] && !r.value.Flag?
    ensures forall i :: 0 <= i < |r.added| ==> r.added[i].folder == "Upgrades"
    ensures r.polls >= polls
  {
    if content.None? then Step(NoneValue, [], polls)
    else match env.parse.project(content.value)
      case None => Step(NoneValue, [], polls)
      case Some(xml) =>
        match Search(content.value, VersionToken)
        case None => Step(Pair(None, false), [], polls)
        case Some(raw) =>
          var key := AsKey(raw);
          if !Installed(env, key) then Step(Pair(Some(key), false), [], polls)
          else if !env.settings.technology then Step(Pair(Some(key), true), [], polls)
          else match xml.packages
            case None => Step(NoneValue, [], polls)
            case Some(pkgs) => Packages(env, Get(env.config, key).value, key, pkgs, polls)
  }

  /** With technology updates off, an installed version is accepted without looking at the packages. */
  lemma TechOffAcceptsInstalledVersion(env: Env, content: string, polls: nat)
    requires !env.settings.technology
    requires env.parse.project(content).Some? && Search(content, VersionToken).Some?
    requires Installed(env, AsKey(Search(content, VersionToken).value))
    ensures Tech(env, Some(content), polls) == Step(Pair(Some(AsKey(Search(content, VersionToken).value)), true), [], polls)
  {
  }

  /** Every file the completed stage writes comes from a contributing package, and every such package's file is written. */
  lemma TechWritesExactlyContributors(env: Env, content: string, polls: nat)
    requires Tech(env, Some(content), polls).value.Pair? && Tech(env, Some(content), polls).value.ok
    requires env.settings.technology
    ensures var r := Tech(env, Some(content), polls);
            var key := r.value.key.value;
            var asPath := Get(env.config, key).value;
            env.parse.project(content).Some? && env.parse.project(content).value.packages.Some? &&
            var pkgs := env.parse.project(content).value.packages.value;
            (forall i :: 0 <= i < |r.added| ==> ContributedBy(env.fs, asPath, key, pkgs, r.added[i].source)) &&
            (forall p, s :: p in pkgs && Contributes(env.fs, asPath, key, p, s) ==> Item("Upgrades", s) in r.added)
  {
    var raw := Search(content, VersionToken).value;
    var key := AsKey(raw);
    var pkgs := env.parse.project(content).value.packages.value;
    PackagesWriteContributors(env, Get(env.config, key).value, key, pkgs, polls);
    PackagesWriteAllContributors(env, Get(env.config, key).value, key, pkgs, polls);
  }

  /** Cancellation cuts the stage short and nothing else: its writes are a prefix of the uncancelled stage's. */
  lemma TechCancelPrefix(env: Env, content: Option<string>, polls: nat)
    ensures Tech(env, content, polls).added <= Tech(env.(cancel := Never), content, polls).added
    ensures Tech(env, content, polls).value != Flag(false) ==> Tech(env, content, polls) == Tech(env.(cancel := Never), content, polls)
  {
    if content.Some? && env.parse.project(content.value).Some? && Search(content.value, VersionToken).Some? {
      var key := AsKey(Search(content.value, VersionToken).value);
      var xml := env.parse.project(content.value).value;
      if Installed(env, key) && env.settings.technology && xml.packages.Some? {
        PackagesCancelPrefix(env, Get(env.config, key).value, key, xml.packages.value, polls);
      }
    }
  }
}
