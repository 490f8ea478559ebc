/**
 `cpu_file_handling` (file_handler.py 212-314): for every configuration folder under
 `Physical`, read `Cpu.pkg` of its first PLC folder, translate the CPU type, and add the
 first runtime installer and the first VC firmware installer found.
 */
module Runtime {
  import opened Optional
  import opened Text
  import opened Files
  import opened Cancellation
  import opened Tokens
  import opened Versions
  import opened Setup

  /** The attributes searched in `Cpu.pkg` (lines 257, 272, 296). */
  const ModuleIdToken := "Configuration ModuleId=\""
  const RuntimeToken := "AutomationRuntime Version=\""
  const VcToken := "Vc FirmwareVersion=\""

  /** Line 253: the entries of a configuration folder that are directories, in listing order. */
  function PlcFolders(fs: Fs, folder: string, names: seq<string>): (r: seq<string>)
    ensures forall n :: n in r <==> n in names && IsDir(fs, PathJoin(folder, n))
    ensures |r| <= |names|
    ensures |r| > 0 ==> exists i :: 0 <= i < |names| && names[i] == r[0] && IsDir(fs, PathJoin(folder, names[i])) &&
                          forall j :: 0 <= j < i ==> !IsDir(fs, PathJoin(folder, names[j]))
  {
    if |names| == 0 then []
    else (if IsDir(fs, PathJoin(folder, names[0])) then [names[0]] else []) + PlcFolders(fs, folder, names[1..])
  }

  /** Line 255: the package file of a PLC folder. */
  function CpuPkgPath(folder: string, plc: string): string {
    folder + "/" + plc + "/Cpu.pkg"
  }

  /** Line 281: in `<base path>/Upgrades`, the names `*AR_<tag>_<cpu>*.exe`. */
  function RuntimePattern(basePath: string, tag: string, cpu: string): string {
    PathJoin(PathJoin(basePath, "Upgrades"), "*AR_" + tag + "_" + cpu + "*.exe")
  }

  /** Line 302: in `<AS path>/Upgrades`, the names `*VC_<version>*.exe`. */
  function VcPattern(asPath: string, vc: string): string {
    PathJoin(PathJoin(asPath, "Upgrades"), "*VC_" + vc + "*.exe")
  }

  /** The translation table, None when `config.ini` has no `TRANSLATE` section. */
  function Rules(cfg: Config): (r: Option<seq<Rule>>)
    ensures r.Some? <==> cfg.translate.Some?
    ensures r.Some? ==> |r.value| == |cfg.translate.value|
  {
    match cfg.translate
    case None => None
    case Some(items) => Some(Table(items))
  }

  /**
   Lines 272-310 for a CPU of (translated) type `cpu`: the runtime installer, the poll
   at line 291, then the VC installer. None is the IndexError of a runtime version
   without a '.'; a bare False is the poll.
   */
  function CpuArtifacts(env: Env, asPath: string, basePath: string, content: string, cpu: string, polls: nat): (r: Step)
    ensures r.value == Flag(true) || r.value == Flag(false) || r.value == NoneValue
    ensures r.value == Flag(false) ==> SawFlag(env.cancel, r.polls)
    ensures r.value == Flag(false) <==>
              !(Search(content, RuntimeToken).Some? && RuntimeTag(Search(content, RuntimeToken).value).None?) && Cancelled(env.cancel, polls)
    ensures r.value == NoneValue ==> r.added == []
    ensures |r.added| <= 2
    ensures UnderUpgrades(r.added)
    ensures r.polls >= polls
  {
    var rv := Search(content, RuntimeToken);
    if rv.Some? && RuntimeTag(rv.value).None? then Step(NoneValue, [], polls)
    else
      var runtime := if rv.Some? then Upgrade(env.fs, RuntimePattern(basePath, RuntimeTag(rv.value).value, cpu)) else [];
      if Cancelled(env.cancel, polls) then Step(Flag(false), runtime, polls + 1)
      else
        var vc := Search(content, VcToken);
        var firmware := if vc.Some? then Upgrade(env.fs, VcPattern(asPath, vc.value)) else [];
        UnderUpgradesConcat(runtime, firmware);
        Step(Flag(true), runtime + firmware, polls + 1)
  }

  /**
   Lines 257-310 on the text of `Cpu.pkg`: no module id adds nothing; a module id
   with no TRANSLATE section raises (`translate_dict` unbound, line 264).
   */
  function CpuPackage(env: Env, asPath: string, basePath: string, content: string, polls: nat): (r: Step)
    ensures r.value == Flag(true) || r.value == Flag(false) || r.value == NoneValue
    ensures r.value == Flag(false) ==> SawFlag(env.cancel, r.polls)
    ensures r.value == NoneValue ==> r.added == []
    ensures UnderUpgrades(r.added)
    ensures r.polls >= polls
  {
    match Search(content, ModuleIdToken)
    case None => Step(Flag(true), [], polls)
    case Some(id) =>
      match Rules(env.config)
      case None => Step(NoneValue, [], polls)
      case Some(rules) => CpuArtifacts(env, asPath, basePath, content, Translate(id, rules), polls)
  }

  /**
   The body of the configuration loop for one configuration folder (lines 253-310).
   `Flag(true)` means the folder is done and the loop goes on; None is an exception
   (among them an unreadable `Cpu.pkg`).
   */
  function CpuConfig(env: Env, asPath: string, basePath: string, folder: string, polls: nat): (r: Step)
    requires IsDir(env.fs, folder)
    ensures r.value == Flag(true) || r.value == Flag(false) || r.value == NoneValue
    ensures r.value == Flag(false) ==> SawFlag(env.cancel, r.polls)
    ensures r.value == NoneValue ==> r.added == []
    ensures UnderUpgrades(r.added)
    ensures r.polls >= polls
  {
    match FirstPlc(env.fs, folder)
    case None => Step(Flag(true), [], polls)
    case Some(plc) =>
      match ReadText(env.fs, CpuPkgPath(folder, plc))
      case None => Step(NoneValue, [], polls)
      case Some(content) => CpuPackage(env, asPath, basePath, content, polls)
  }

  /** The PLC folder `Cpu.pkg` is read from: the first directory of the configuration folder. */
  function FirstPlc(fs: Fs, folder: string): Option<string>
    requires IsDir(fs, folder)
  {
    var plcs := PlcFolders(fs, folder, ListDir(fs, folder).value);
    if |plcs| == 0 then None else Some(plcs[0])
  }

  /** `folders[0]`: the PLC folder read is the first entry of the listing that is a directory. */
  lemma FirstPlcIsFirstDirectory(fs: Fs, folder: string, k: nat)
    requires IsDir(fs, folder)
    requires var names := ListDir(fs, folder).value;
             k < |names| && IsDir(fs, PathJoin(folder, names[k])) &&
             forall j :: 0 <= j < k ==> !IsDir(fs, PathJoin(folder, names[j]))
    ensures FirstPlc(fs, folder) == Some(ListDir(fs, folder).value[k])
  {
    var names := ListDir(fs, folder).value;
    var plcs := PlcFolders(fs, folder, names);
    assert names[k] in plcs;
    var i :| 0 <= i < |names| && names[i] == plcs[0] && IsDir(fs, PathJoin(folder, names[i])) &&
             forall j :: 0 <= j < i ==> !IsDir(fs, PathJoin(folder, names[j]));
    assert i == k;
  }

  /**
   Only the first PLC folder counts: when its `Cpu.pkg` names no module, the folder
   adds nothing, whatever the other PLC folders hold.
   */
  lemma FirstPlcOnly(env: Env, asPath: string, basePath: string, folder: string, polls: nat)
    requires IsDir(env.fs, folder) && FirstPlc(env.fs, folder).Some?
    requires var text := ReadText(env.fs, CpuPkgPath(folder, FirstPlc(env.fs, folder).value));
             text.Some? && Search(text.value, ModuleIdToken).None?
    ensures CpuConfig(env, asPath, basePath, folder, polls) == Step(Flag(true), [], polls)
  {
  }

  /** With no TRANSLATE section, the first CPU module found raises, before anything is added. */
  lemma MissingTranslateRaises(env: Env, asPath: string, basePath: string, folder: string, polls: nat)
    requires env.config.translate.None?
    requires IsDir(env.fs, folder) && FirstPlc(env.fs, folder).Some?
    requires var text := ReadText(env.fs, CpuPkgPath(folder, FirstPlc(env.fs, folder).value));
             text.Some? && Search(text.value, ModuleIdToken).Some?
    ensures CpuConfig(env, asPath, basePath, folder, polls) == Step(NoneValue, [], polls)
  {
  }

  /** A runtime version with no '.' raises (IndexError at line 276), before anything is added. */
  lemma ShortRuntimeVersionRaises(env: Env, asPath: string, basePath: string, folder: string, polls: nat)
    requires env.config.translate.Some?
    requires IsDir(env.fs, folder) && FirstPlc(env.fs, folder).Some?
    requires var text := ReadText(env.fs, CpuPkgPath(folder, FirstPlc(env.fs, folder).value));
             && text.Some? && Search(text.value, ModuleIdToken).Some?
             && Search(text.value, RuntimeToken).Some? && '.' !in Search(text.value, RuntimeToken).value
    ensures CpuConfig(env, asPath, basePath, folder, polls) == Step(NoneValue, [], polls)
  {
  }

  /**
   What one configuration folder adds when nothing is cancelled: the first runtime
   installer for the tag of the runtime version and the translated CPU type, then the
   first VC installer for the VC version, each only when its version and file are found.
   */
  lemma CpuConfigWrites(env: Env, asPath: string, basePath: string, folder: string, polls: nat, text: string, rules: seq<Rule>)
    requires env.cancel.Never?
    requires IsDir(env.fs, folder) && FirstPlc(env.fs, folder).Some?
    requires ReadText(env.fs, CpuPkgPath(folder, FirstPlc(env.fs, folder).value)) == Some(text)
    requires Search(text, ModuleIdToken).Some? && Rules(env.config) == Some(rules)
    requires Search(text, RuntimeToken).Some? ==> '.' in Search(text, RuntimeToken).value
    ensures var cpu := Translate(Search(text, ModuleIdToken).value, rules);
            var rv := Search(text, RuntimeToken);
            var vc := Search(text, VcToken);
            CpuConfig(env, asPath, basePath, folder, polls) ==
            Step(Flag(true),
                 (if rv.Some? then Upgrade(env.fs, RuntimePattern(basePath, RuntimeTag(rv.value).value, cpu)) else []) +
                 (if vc.Some? then Upgrade(env.fs, VcPattern(asPath, vc.value)) else []),
                 polls + 1)
  {
    var id := Search(text, ModuleIdToken).value;
    assert CpuConfig(env, asPath, basePath, folder, polls) == CpuPackage(env, asPath, basePath, text, polls);
    assert CpuPackage(env, asPath, basePath, text, polls) == CpuArtifacts(env, asPath, basePath, text, Translate(id, rules), polls);
  }

  /** The configuration loop (lines 243-310): a poll before every entry of `Physical`; non-directories are passed over. */
  function CpuConfigs(env: Env, asPath: string, basePath: string, physical: string, names: seq<string>, polls: nat): (r: Step)
    ensures r.value == Flag(true) || r.value == Flag(false) || r.value == NoneValue
    ensures r.value == Flag(false) ==> SawFlag(env.cancel, r.polls)
    ensures |names| > 0 && Cancelled(env.cancel, polls) ==> r == Step(Flag(false), [], polls + 1)
    ensures UnderUpgrades(r.added)
    ensures r.polls >= polls
    decreases |names|
  {
    if |names| == 0 then Step(Flag(true), [], polls)
    else if Cancelled(env.cancel, polls) then Step(Flag(false), [], polls + 1)
    else
      var folder := PathJoin(physical, names[0]);
      if !IsDir(env.fs, folder) then CpuConfigs(env, asPath, basePath, physical, names[1..], polls + 1)
      else
        var c := CpuConfig(env, asPath, basePath, folder, polls + 1);
        if c.value != Flag(true) then c
        else
          var rest := CpuConfigs(env, asPath, basePath, physical, names[1..], c.polls);
          UnderUpgradesConcat(c.added, rest.added);
          Step(rest.value, c.added + rest.added, rest.polls)
  }

  lemma CpuConfigCancelPrefix(env: Env, asPath: string, basePath: string, folder: string, polls: nat)
    requires IsDir(env.fs, folder)
    ensures CpuConfig(env, asPath, basePath, folder, polls).added <= CpuConfig(env.(cancel := Never), asPath, basePath, folder, polls).added
    ensures CpuConfig(env, asPath, basePath, folder, polls).value != Flag(false) ==>
              CpuConfig(env, asPath, basePath, folder, polls) == CpuConfig(env.(cancel := Never), asPath, basePath, folder, polls)
  {
    match FirstPlc(env.fs, folder)
    case None =>
    case Some(plc) =>
      match ReadText(env.fs, CpuPkgPath(folder, plc))
      case None =>
      case Some(content) =>
        match Search(content, ModuleIdToken)
        case None =>
        case Some(id) =>
          match Rules(env.config)
          case None =>
          case Some(rules) => CpuArtifactsCancelPrefix(env, asPath, basePath, content, Translate(id, rules), polls);
  }

  lemma CpuArtifactsCancelPrefix(env: Env, asPath: string, basePath: string, content: string, cpu: string, polls: nat)
    ensures CpuArtifacts(env, asPath, basePath, content, cpu, polls).added <= CpuArtifacts(env.(cancel := Never), asPath, basePath, content, cpu, polls).added
    ensures CpuArtifacts(env, asPath, basePath, content, cpu, polls).value != Flag(false) ==>
              CpuArtifacts(env, asPath, basePath, content, cpu, polls) == CpuArtifacts(env.(cancel := Never), asPath, basePath, content, cpu, polls)
  {
  }

  /** Cancellation cuts the loop short: its writes are a prefix of the uncancelled loop's. */
  lemma {:induction false} CpuConfigsCancelPrefix(env: Env, asPath: string, basePath: string, physical: string, names: seq<string>, polls: nat)
    ensures CpuConfigs(env, asPath, basePath, physical, names, polls).added <=
            CpuConfigs(env.(cancel := Never), asPath, basePath, physical, names, polls).added
    ensures CpuConfigs(env, asPath, basePath, physical, names, polls).value != Flag(false) ==>
              CpuConfigs(env, asPath, basePath, physical, names, polls) == CpuConfigs(env.(cancel := Never), asPath, basePath, physical, names, polls)
    decreases |names|
  {
    var e := env.(cancel := Never);
    if |names| > 0 && !Cancelled(env.cancel, polls) {
      var folder := PathJoin(physical, names[0]);
      if !IsDir(env.fs, folder) {
        CpuConfigsCancelPrefix(env, asPath, basePath, physical, names[1..], polls + 1);
      } else {
        CpuConfigCancelPrefix(env, asPath, basePath, folder, polls + 1);
        var c := CpuConfig(env, asPath, basePath, folder, polls + 1);
        if c.value == Flag(true) {
          CpuConfigsCancelPrefix(env, asPath, basePath, physical, names[1..], c.polls);
        }
      }
    }
  }

  /** Without cancellation one folder's result does not depend on the poll count. */
  lemma CpuConfigIgnorePolls(env: Env, asPath: string, basePath: string, folder: string, a: nat, b: nat)
    requires env.cancel.Never? && IsDir(env.fs, folder)
    ensures CpuConfig(env, asPath, basePath, folder, a).value == CpuConfig(env, asPath, basePath, folder, b).value
    ensures CpuConfig(env, asPath, basePath, folder, a).added == CpuConfig(env, asPath, basePath, folder, b).added
  {
    match FirstPlc(env.fs, folder)
    case None =>
    case Some(plc) =>
      match ReadText(env.fs, CpuPkgPath(folder, plc))
      case None =>
      case Some(content) =>
        match Search(content, ModuleIdToken)
        case None =>
        case Some(id) =>
          match Rules(env.config)
          case None =>
          case Some(rules) => CpuArtifactsIgnorePolls(env, asPath, basePath, content, Translate(id, rules), a, b);
  }

  lemma CpuArtifactsIgnorePolls(env: Env, asPath: string, basePath: string, content: string, cpu: string, a: nat, b: nat)
    requires env.cancel.Never?
    ensures CpuArtifacts(env, asPath, basePath, content, cpu, a).value == CpuArtifacts(env, asPath, basePath, content, cpu, b).value
    ensures CpuArtifacts(env, asPath, basePath, content, cpu, a).added == CpuArtifacts(env, asPath, basePath, content, cpu, b).added
  {
  }

  /**
   What the configuration loop writes when it runs to the end: the writes of every entry
   of `Physical` that is a directory, in listing order, each folder's writes being those
   of `CpuConfig` left uncancelled.
   */
  function ConfigWrites(env: Env, asPath: string, basePath: string, physical: string, names: seq<string>): seq<Item>
    decreases |names|
  {
    if |names| == 0 then []
    else
      var folder := PathJoin(physical, names[0]);
      (if IsDir(env.fs, folder) then CpuConfig(env.(cancel := Never), asPath, basePath, folder, 0).added else []) +
      ConfigWrites(env, asPath, basePath, physical, names[1..])
  }

  /** A loop that runs to the end wrote every configuration folder's installers, in listing order, and nothing else. */
  lemma CpuConfigsWritesAll(env: Env, asPath: string, basePath: string, physical: string, names: seq<string>, polls: nat)
    requires CpuConfigs(env, asPath, basePath, physical, names, polls).value == Flag(true)
    ensures CpuConfigs(env, asPath, basePath, physical, names, polls).added == ConfigWrites(env, asPath, basePath, physical, names)
  {
    CpuConfigsCancelPrefix(env, asPath, basePath, physical, names, polls);
    CpuConfigsWritesAllNever(env, asPath, basePath, physical, names, polls);
  }

  lemma {:induction false} CpuConfigsWritesAllNever(env: Env, asPath: string, basePath: string, physical: string, names: seq<string>, polls: nat)
    requires CpuConfigs(env.(cancel := Never), asPath, basePath, physical, names, polls).value == Flag(true)
    ensures CpuConfigs(env.(cancel := Never), asPath, basePath, physical, names, polls).added == ConfigWrites(env, asPath, basePath, physical, names)
    decreases |names|
  {
    var e := env.(cancel := Never);
    if |names| > 0 {
      var folder := PathJoin(physical, names[0]);
      if !IsDir(env.fs, folder) {
        CpuConfigsWritesAllNever(env, asPath, basePath, physical, names[1..], polls + 1);
      } else {
        var c := CpuConfig(e, asPath, basePath, folder, polls + 1);
        assert c.value == Flag(true);
        CpuConfigIgnorePolls(e, asPath, basePath, folder, polls + 1, 0);
        CpuConfigsWritesAllNever(env, asPath, basePath, physical, names[1..], c.polls);
      }
    }
  }

  /**
   The whole stage. A missing `[AS]` entry for the key or for `<key>_base` gives the
   tuple `(key, False)`; a missing `Physical` folder a bare False; a `Physical` that is
   a file None (listdir raises).
   */
  function Cpu(env: Env, file: string, key: string, polls: nat): (r: Step)
    ensures r.value.Pair? <==> Get(env.config, key).None? || Get(env.config, key + "_base").None?
    ensures r.value.Pair? ==> r.value == Pair(Some(key), false) && r.added == []
    ensures r.value == Flag(false) ==> SawFlag(env.cancel, r.polls) || !Exists(env.fs, PhysicalPath(file))
    ensures Get(env.config, key).Some? && Get(env.config, key + "_base").Some? && Exists(env.fs, PhysicalPath(file)) &&
            ListDir(env.fs, PhysicalPath(file)).Some? && |ListDir(env.fs, PhysicalPath(file)).value| > 0 &&
            Cancelled(env.cancel, polls) ==>
              r == Step(Flag(false), [], polls + 1)
    ensures UnderUpgrades(r.added)
    ensures r.polls >= polls
  {
    match Get(env.config, key)
    case None => Step(Pair(Some(key), false), [], polls)
    case Some(asPath) =>
      match Get(env.config, key + "_base")
      case None => Step(Pair(Some(key), false), [], polls)
      case Some(basePath) =>
        var physical := PhysicalPath(file);
        if !Exists(env.fs, physical) then Step(Flag(false), [], polls)
        else match ListDir(env.fs, physical)
          case None => Step(NoneValue, [], polls)
          case Some(names) => CpuConfigs(env, asPath, basePath, physical, names, polls)
  }

  /** Cancellation cuts the stage short: its writes are a prefix of the uncancelled stage's. */
  lemma CpuCancelPrefix(env: Env, file: string, key: string, polls: nat)
    ensures Cpu(env, file, key, polls).added <= Cpu(env.(cancel := Never), file, key, polls).added
    ensures Cpu(env, file, key, polls).value != Flag(false) ==>
              Cpu(env, file, key, polls) == Cpu(env.(cancel := Never), file, key, polls)
  {
    var physical := PhysicalPath(file);
    if Get(env.config, key).Some? && Get(env.config, key + "_base").Some? && Exists(env.fs, physical) && ListDir(env.fs, physical).Some? {
      CpuConfigsCancelPrefix(env, Get(env.config, key).value, Get(env.config, key + "_base").value, physical, ListDir(env.fs, physical).value, polls);
    }
  }

  /**
   A stage that runs to the end wrote, for every configuration folder of `Physical` in
   listing order, that folder's runtime and VC installers, and nothing else.
   */
  lemma CpuWritesAll(env: Env, file: string, key: string, polls: nat)
    requires Cpu(env, file, key, polls).value == Flag(true)
    ensures Get(env.config, key).Some? && Get(env.config, key + "_base").Some?
    ensures ListDir(env.fs, PhysicalPath(file)).Some?
    ensures Cpu(env, file, key, polls).added ==
            ConfigWrites(env, Get(env.config, key).value, Get(env.config, key + "_base").value,
                         PhysicalPath(file), ListDir(env.fs, PhysicalPath(file)).value)
  {
    CpuConfigsWritesAll(env, Get(env.config, key).value, Get(env.config, key + "_base").value,
                        PhysicalPath(file), ListDir(env.fs, PhysicalPath(file)).value, polls);
  }
}
