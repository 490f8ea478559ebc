/**
 `hw_file_handling` (file_handler.py 93-209): for every configuration folder under
 `Physical`, add the firmware of the external modules of its PLC folders (only when the
 debug level is above 0) and the firmware of the modules listed in its `Hardware.hw`.
 */
module Hardware {
  import opened Optional
  import opened Text
  import opened Files
  import opened Cancellation
  import opened Setup

  /** The archive folder prefix of external firmware (line 168). */
  const ExternalRoot := "AS\\ExternalHardware\\Modules/"

  /** Line 168: `AS\ExternalHardware\Modules/<ModuleID>`. */
  function ExtFolder(id: Option<string>): string {
    ExternalRoot + Show(id)
  }

  /** Line 152: 'N/A' without a `SourceFile` child, the rendered attribute otherwise. */
  function OriginalFile(s: SourceFile): string {
    match s
    case NoSourceFile => "N/A"
    case SourceFile(original) => Show(original)
  }

  /** Line 157: `<Data>/AS<key without '_'>/Hardware/Modules/<ModuleID>/<Version>/Source`. */
  function FirmwarePath(data: string, key: string, m: ExtModule): string {
    data + "/AS" + RemoveChar(key, '_') + "/Hardware/Modules" + "/" + Show(m.moduleId) + "/" + Show(m.version) + "/Source"
  }

  /** Line 137: the device list of a PLC folder. */
  function ExtDevicesPath(plc: string): string {
    plc + "/" + "/ExternalHardware/ExternalHardwareDevices.xml"
  }

  /** Line 175: `Hardware.hw` of the configuration folder itself. */
  function HardwareHwPath(folder: string): string {
    folder + "/" + "/Hardware.hw"
  }

  /** Line 194: the folder of a module type in the installation. */
  function TypeDir(asPath: string, m: HwModule): string {
    asPath + "/Upgrades" + "/" + Show(m.moduleType)
  }

  /** Line 195: the folder of one version of a module type. */
  function VersionDir(asPath: string, m: HwModule): string {
    TypeDir(asPath, m) + "/" + Show(m.version)
  }

  /** Line 198: every `.exe` of the version folder. */
  function ModulePattern(asPath: string, m: HwModule): string {
    VersionDir(asPath, m) + "/" + "*.exe"
  }

  /**
   The glob of line 198 lists the module's version folder and keeps the visible names
   ending in `.exe`, in listing order, joined onto that folder.
   */
  lemma ModuleGlob(fs: Fs, asPath: string, m: HwModule)
    requires |Show(m.version)| > 0 && Show(m.version)[|Show(m.version)| - 1] != '/'
    ensures Dirname(ModulePattern(asPath, m)) == VersionDir(asPath, m)
    ensures Basename(ModulePattern(asPath, m)) == "*.exe"
    ensures Glob(fs, ModulePattern(asPath, m)) ==
            match ListDir(fs, VersionDir(asPath, m))
            case None => []
            case Some(names) => JoinAll(VersionDir(asPath, m), Candidates(names, "*.exe"))
  {
    var dir := VersionDir(asPath, m);
    assert dir[|dir| - 1] == Show(m.version)[|Show(m.version)| - 1];
    assert ModulePattern(asPath, m) == PathJoin(dir, "*.exe");
    DirnameOfJoin(dir, "*.exe");
    BasenameOfJoin(dir, "*.exe");
    assert '*' in ModulePattern(asPath, m) by {
      assert ModulePattern(asPath, m)[|dir| + 1] == '*';
    }
  }

  /** Every write goes to `Upgrades` or below the external firmware folder. */
  predicate HwFolders(items: seq<Item>) {
    forall i :: 0 <= i < |items| ==> items[i].folder == "Upgrades" || StartsWith(items[i].folder, ExternalRoot)
  }

  lemma HwFoldersConcat(a: seq<Item>, b: seq<Item>)
    requires HwFolders(a) && HwFolders(b)
    ensures HwFolders(a + b)
  {
    forall i | 0 <= i < |a + b| ensures (a + b)[i].folder == "Upgrades" || StartsWith((a + b)[i].folder, ExternalRoot) {
      if i >= |a| {
        assert (a + b)[i] == b[i - |a|];
      }
    }
  }

  lemma ExtFolderIsExternal(id: Option<string>)
    ensures StartsWith(ExtFolder(id), ExternalRoot)
  {
    assert ExtFolder(id)[..|ExternalRoot|] == ExternalRoot;
  }

  /** Module `m` has a firmware folder and its `OriginalFile` pattern first matches `source`. */
  predicate ExtContributes(fs: Fs, data: string, key: string, m: ExtModule, source: string) {
    Exists(fs, FirmwarePath(data, key, m)) && FirstMatch(fs, FirmwarePath(data, key, m) + "/" + OriginalFile(m.source)) == Some(source)
  }

  /**
   The external module loop (lines 144-171): a poll before each module; a module whose
   firmware folder exists but holds no match only logs, and that log line names
   `module_type`, which is unbound (UnboundLocalError) until some common module has been
   seen, so with `bound` false and debug level above 1 the stage raises there.
   */
  function ExtModules(env: Env, data: string, key: string, mods: seq<ExtModule>, bound: bool, polls: nat): (r: Step)
    ensures r.value == Flag(true) || r.value == Flag(false) || r.value == NoneValue
    ensures r.value == Flag(false) ==> SawFlag(env.cancel, r.polls)
    ensures |mods| > 0 && Cancelled(env.cancel, polls) ==> r == Step(Flag(false), [], polls + 1)
    ensures r.value == NoneValue ==> env.settings.debug > 1 && !bound
    ensures forall i :: 0 <= i < |r.added| ==> StartsWith(r.added[i].folder, ExternalRoot)
    ensures r.polls >= polls
    decreases |mods|
  {
    if |mods| == 0 then Step(Flag(true), [], polls)
    else if Cancelled(env.cancel, polls) then Step(Flag(false), [], polls + 1)
    else
      var m := mods[0];
      var fw := FirmwarePath(data, key, m);
      var found := if Exists(env.fs, fw) then FirstMatch(env.fs, fw + "/" + OriginalFile(m.source)) else None;
      if Exists(env.fs, fw) && found.None? && env.settings.debug > 1 && !bound then Step(NoneValue, [], polls + 1)
      else
        var rest := ExtModules(env, data, key, mods[1..], bound, polls + 1);
        var mine := if found.Some? then [Item(ExtFolder(m.moduleId), found.value)] else [];
        ExtFolderIsExternal(m.moduleId);
        Step(rest.value, mine + rest.added, rest.polls)
  }

  /** Before any common module was seen, a firmware folder without a match raises at debug level 2 or more. */
  lemma UnboundModuleTypeRaises(env: Env, data: string, key: string, m: ExtModule, mods: seq<ExtModule>, polls: nat)
    requires env.settings.debug > 1 && !Cancelled(env.cancel, polls)
    requires Exists(env.fs, FirmwarePath(data, key, m))
    requires |Glob(env.fs, FirmwarePath(data, key, m) + "/" + OriginalFile(m.source))| == 0
    ensures ExtModules(env, data, key, [m] + mods, false, polls) == Step(NoneValue, [], polls + 1)
  {
  }

  /** Once a common module was seen the same module is only logged, and the loop goes on. */
  lemma BoundModuleTypeContinues(env: Env, data: string, key: string, m: ExtModule, mods: seq<ExtModule>, polls: nat)
    requires !Cancelled(env.cancel, polls)
    requires Exists(env.fs, FirmwarePath(data, key, m))
    requires |Glob(env.fs, FirmwarePath(data, key, m) + "/" + OriginalFile(m.source))| == 0
    ensures ExtModules(env, data, key, [m] + mods, true, polls) == ExtModules(env, data, key, mods, true, polls + 1)
  {
    assert ([m] + mods)[1..] == mods;
  }

  /** When the loop runs to the end, every contributing module's firmware was written below its module folder. */
  lemma {:induction false} ExtModulesWriteAll(env: Env, data: string, key: string, mods: seq<ExtModule>, bound: bool, polls: nat)
    requires ExtModules(env, data, key, mods, bound, polls).value == Flag(true)
    ensures forall m, s :: m in mods && ExtContributes(env.fs, data, key, m, s) ==>
              Item(ExtFolder(m.moduleId), s) in ExtModules(env, data, key, mods, bound, polls).added
    decreases |mods|
  {
    if |mods| > 0 {
      var m := mods[0];
      var fw := FirmwarePath(data, key, m);
      var found := if Exists(env.fs, fw) then FirstMatch(env.fs, fw + "/" + OriginalFile(m.source)) else None;
      var rest := ExtModules(env, data, key, mods[1..], bound, polls + 1);
      var mine := if found.Some? then [Item(ExtFolder(m.moduleId), found.value)] else [];
      ExtModulesWriteAll(env, data, key, mods[1..], bound, polls + 1);
      var r := ExtModules(env, data, key, mods, bound, polls);
      assert r.added == mine + rest.added;
      forall q, s | q in mods && ExtContributes(env.fs, data, key, q, s) ensures Item(ExtFolder(q.moduleId), s) in r.added {
        if q == m {
          assert r.added[0] == Item(ExtFolder(q.moduleId), s);
        } else {
          assert q in mods[1..];
          assert Item(ExtFolder(q.moduleId), s) in rest.added;
        }
      }
    }
  }

  lemma {:induction false} ExtModulesCancelPrefix(env: Env, data: string, key: string, mods: seq<ExtModule>, bound: bool, polls: nat)
    ensures ExtModules(env, data, key, mods, bound, polls).added <= ExtModules(env.(cancel := Never), data, key, mods, bound, polls).added
    ensures ExtModules(env, data, key, mods, bound, polls).value != Flag(false) ==>
              ExtModules(env, data, key, mods, bound, polls) == ExtModules(env.(cancel := Never), data, key, mods, bound, polls)
    decreases |mods|
  {
    var e := env.(cancel := Never);
    if |mods| > 0 && !Cancelled(env.cancel, polls) {
      ExtModulesCancelPrefix(env, data, key, mods[1..], bound, polls + 1);
      var m := mods[0];
      var fw := FirmwarePath(data, key, m);
      var found := if Exists(env.fs, fw) then FirstMatch(env.fs, fw + "/" + OriginalFile(m.source)) else None;
      if !(Exists(env.fs, fw) && found.None? && env.settings.debug > 1 && !bound) {
        var rest := ExtModules(env, data, key, mods[1..], bound, polls + 1);
        var nrest := ExtModules(e, data, key, mods[1..], bound, polls + 1);
        var mine := if found.Some? then [Item(ExtFolder(m.moduleId), found.value)] else [];
        assert ExtModules(env, data, key, mods, bound, polls) == Step(rest.value, mine + rest.added, rest.polls);
        assert ExtModules(e, data, key, mods, bound, polls) == Step(nrest.value, mine + nrest.added, nrest.polls);
        assert mine + rest.added <= mine + nrest.added;
      } else {
        assert ExtModules(env, data, key, mods, bound, polls) == ExtModules(e, data, key, mods, bound, polls);
      }
    }
  }

  /**
   The PLC folder loop (lines 127-171), without polls of its own: a PLC folder with an
   `ExternalHardware` folder has its device list read and parsed, at debug level above
   0 only; an unreadable or unparsable list raises.
   */
  function ExtPlcs(env: Env, data: string, key: string, folder: string, names: seq<string>, bound: bool, polls: nat): (r: Step)
    ensures r.value == Flag(true) || r.value == Flag(false) || r.value == NoneValue
    ensures r.value == Flag(false) ==> SawFlag(env.cancel, r.polls)
    ensures env.settings.debug <= 0 ==> r == Step(Flag(true), [], polls)
    ensures forall i :: 0 <= i < |r.added| ==> StartsWith(r.added[i].folder, ExternalRoot)
    ensures r.polls >= polls
    decreases |names|
  {
    if |names| == 0 then Step(Flag(true), [], polls)
    else
      var plc := PathJoin(folder, names[0]);
      if IsDir(env.fs, plc) && Exists(env.fs, plc + "/ExternalHardware") && env.settings.debug > 0 then
        match ReadText(env.fs, ExtDevicesPath(plc))
        case None => Step(NoneValue, [], polls)
        case Some(content) =>
          match env.parse.external(content)
          case None => Step(NoneValue, [], polls)
          case Some(mods) =>
            var e := ExtModules(env, data, key, mods, bound, polls);
            if e.value != Flag(true) then e
            else
              var rest := ExtPlcs(env, data, key, folder, names[1..], bound, e.polls);
              Step(rest.value, e.added + rest.added, rest.polls)
      else ExtPlcs(env, data, key, folder, names[1..], bound, polls)
  }

  lemma {:induction false} ExtPlcsCancelPrefix(env: Env, data: string, key: string, folder: string, names: seq<string>, bound: bool, polls: nat)
    ensures ExtPlcs(env, data, key, folder, names, bound, polls).added <= ExtPlcs(env.(cancel := Never), data, key, folder, names, bound, polls).added
    ensures ExtPlcs(env, data, key, folder, names, bound, polls).value != Flag(false) ==>
              ExtPlcs(env, data, key, folder, names, bound, polls) == ExtPlcs(env.(cancel := Never), data, key, folder, names, bound, polls)
    decreases |names|
  {
    if |names| > 0 {
      var plc := PathJoin(folder, names[0]);
      if IsDir(env.fs, plc) && Exists(env.fs, plc + "/ExternalHardware") && env.settings.debug > 0 {
        var content := ReadText(env.fs, ExtDevicesPath(plc));
        if content.Some? && env.parse.external(content.value).Some? {
          var mods := env.parse.external(content.value).value;
          ExtModulesCancelPrefix(env, data, key, mods, bound, polls);
          var e := ExtModules(env, data, key, mods, bound, polls);
          if e.value == Flag(true) {
            ExtPlcsCancelPrefix(env, data, key, folder, names[1..], bound, e.polls);
          }
        }
      } else {
        ExtPlcsCancelPrefix(env, data, key, folder, names[1..], bound, polls);
      }
    }
  }

  /** Module `m`'s type and version folders exist and the first `.exe` in the version folder is `source`. */
  predicate CommonContributes(fs: Fs, asPath: string, m: HwModule, source: string) {
    Exists(fs, TypeDir(asPath, m)) && Exists(fs, VersionDir(asPath, m)) && FirstMatch(fs, ModulePattern(asPath, m)) == Some(source)
  }

  /** The common module loop (lines 184-206): a poll before each module, then the two folder checks and the lookup. */
  function CommonModules(env: Env, asPath: string, mods: seq<HwModule>, polls: nat): (r: Step)
    ensures r.value == Flag(true) || r.value == Flag(false)
    ensures r.value == Flag(false) ==> SawFlag(env.cancel, r.polls)
    ensures |mods| > 0 && Cancelled(env.cancel, polls) ==> r == Step(Flag(false), [], polls + 1)
    ensures UnderUpgrades(r.added)
    ensures r.polls >= polls
    decreases |mods|
  {
    if |mods| == 0 then Step(Flag(true), [], polls)
    else if Cancelled(env.cancel, polls) then Step(Flag(false), [], polls + 1)
    else
      var m := mods[0];
      var mine := if Exists(env.fs, TypeDir(asPath, m)) && Exists(env.fs, VersionDir(asPath, m)) then Upgrade(env.fs, ModulePattern(asPath, m)) else [];
      var rest := CommonModules(env, asPath, mods[1..], polls + 1);
      UnderUpgradesConcat(mine, rest.added);
      Step(rest.value, mine + rest.added, rest.polls)
  }

  /** When the loop runs to the end, every contributing module's firmware was written under `Upgrades`. */
  lemma {:induction false} CommonModulesWriteAll(env: Env, asPath: string, mods: seq<HwModule>, polls: nat)
    requires CommonModules(env, asPath, mods, polls).value == Flag(true)
    ensures forall m, s :: m in mods && CommonContributes(env.fs, asPath, m, s) ==>
              Item("Upgrades", s) in CommonModules(env, asPath, mods, polls).added
    decreases |mods|
  {
    if |mods| > 0 {
      var m := mods[0];
      var mine := if Exists(env.fs, TypeDir(asPath, m)) && Exists(env.fs, VersionDir(asPath, m)) then Upgrade(env.fs, ModulePattern(asPath, m)) else [];
      var rest := CommonModules(env, asPath, mods[1..], polls + 1);
      CommonModulesWriteAll(env, asPath, mods[1..], polls + 1);
      var r := CommonModules(env, asPath, mods, polls);
      assert r.added == mine + rest.added;
      forall q, s | q in mods && CommonContributes(env.fs, asPath, q, s) ensures Item("Upgrades", s) in r.added {
        if q == m {
          assert r.added[0] == Item("Upgrades", s);
        } else {
          assert q in mods[1..];
          assert Item("Upgrades", s) in rest.added;
        }
      }
    }
  }

  lemma {:induction false} CommonModulesCancelPrefix(env: Env, asPath: string, mods: seq<HwModule>, polls: nat)
    ensures CommonModules(env, asPath, mods, polls).added <= CommonModules(env.(cancel := Never), asPath, mods, polls).added
    ensures CommonModules(env, asPath, mods, polls).value != Flag(false) ==>
              CommonModules(env, asPath, mods, polls) == CommonModules(env.(cancel := Never), asPath, mods, polls)
    decreases |mods|
  {
    var e := env.(cancel := Never);
    if |mods| > 0 && !Cancelled(env.cancel, polls) {
      CommonModulesCancelPrefix(env, asPath, mods[1..], polls + 1);
      var m := mods[0];
      var mine := if Exists(env.fs, TypeDir(asPath, m)) && Exists(env.fs, VersionDir(asPath, m)) then Upgrade(env.fs, ModulePattern(asPath, m)) else [];
      var rest := CommonModules(env, asPath, mods[1..], polls + 1);
      var nrest := CommonModules(e, asPath, mods[1..], polls + 1);
      assert CommonModules(env, asPath, mods, polls) == Step(rest.value, mine + rest.added, rest.polls);
      assert CommonModules(e, asPath, mods, polls) == Step(nrest.value, mine + nrest.added, nrest.polls);
    }
  }

  /** The module list of a configuration folder's `Hardware.hw`; None when it cannot be read or parsed (an exception). */
  function CommonList(env: Env, folder: string): Option<seq<HwModule>> {
    match ReadText(env.fs, HardwareHwPath(folder))
    case None => None
    case Some(content) => env.parse.hardware(content)
  }

  /** One configuration folder (lines 120-206): external firmware first, then the common modules. */
  function HwConfig(env: Env, asPath: string, data: string, key: string, folder: string, bound: bool, polls: nat): (r: Step)
    requires IsDir(env.fs, folder)
    ensures r.value == Flag(true) || r.value == Flag(false) || r.value == NoneValue
    ensures r.value == Flag(false) ==> SawFlag(env.cancel, r.polls)
    ensures r.value == Flag(true) ==> CommonList(env, folder).Some?
    ensures HwFolders(r.added)
    ensures env.settings.debug <= 0 ==> UnderUpgrades(r.added)
    ensures r.polls >= polls
  {
    var e := ExtPlcs(env, data, key, folder, ListDir(env.fs, folder).value, bound, polls);
    assert HwFolders(e.added);
    if e.value != Flag(true) then e
    else match CommonList(env, folder)
      case None => Step(NoneValue, e.added, e.polls)
      case Some(mods) =>
        var c := CommonModules(env, asPath, mods, e.polls);
        HwFoldersConcat(e.added, c.added);
        UnderUpgradesConcat(e.added, c.added);
        Step(c.value, e.added + c.added, c.polls)
  }

  lemma HwConfigCancelPrefix(env: Env, asPath: string, data: string, key: string, folder: string, bound: bool, polls: nat)
    requires IsDir(env.fs, folder)
    ensures HwConfig(env, asPath, data, key, folder, bound, polls).added <= HwConfig(env.(cancel := Never), asPath, data, key, folder, bound, polls).added
    ensures HwConfig(env, asPath, data, key, folder, bound, polls).value != Flag(false) ==>
              HwConfig(env, asPath, data, key, folder, bound, polls) == HwConfig(env.(cancel := Never), asPath, data, key, folder, bound, polls)
  {
    var names := ListDir(env.fs, folder).value;
    ExtPlcsCancelPrefix(env, data, key, folder, names, bound, polls);
    var e := ExtPlcs(env, data, key, folder, names, bound, polls);
    if e.value == Flag(true) && CommonList(env, folder).Some? {
      CommonModulesCancelPrefix(env, asPath, CommonList(env, folder).value, e.polls);
    }
  }

  /**
   The configuration loop (lines 115-206): a poll before every entry of `Physical`;
   `bound` records whether a common module has been seen, in this folder or an earlier one.
   */
  function HwConfigs(env: Env, asPath: string, data: string, key: string, physical: string, names: seq<string>, bound: bool, polls: nat): (r: Step)
    ensures r.value == Flag(true) || r.value == Flag(false) || r.value == NoneValue
    ensures r.value == Flag(false) ==> SawFlag(env.cancel, r.polls)
    ensures |names| > 0 && Cancelled(env.cancel, polls) ==> r == Step(Flag(false), [], polls + 1)
    ensures HwFolders(r.added)
    ensures env.settings.debug <= 0 ==> UnderUpgrades(r.added)
    ensures r.polls >= polls
    decreases |names|
  {
    if |names| == 0 then Step(Flag(true), [], polls)
    else if Cancelled(env.cancel, polls) then Step(Flag(false), [], polls + 1)
    else
      var folder := PathJoin(physical, names[0]);
      if !IsDir(env.fs, folder) then HwConfigs(env, asPath, data, key, physical, names[1..], bound, polls + 1)
      else
        var h := HwConfig(env, asPath, data, key, folder, bound, polls + 1);
        if h.value != Flag(true) then h
        else
          var seen := bound || |CommonList(env, folder).value| > 0;
          var rest := HwConfigs(env, asPath, data, key, physical, names[1..], seen, h.polls);
          HwFoldersConcat(h.added, rest.added);
          UnderUpgradesConcat(h.added, rest.added);
          Step(rest.value, h.added + rest.added, rest.polls)
  }

  lemma {:induction false} HwConfigsCancelPrefix(env: Env, asPath: string, data: string, key: string, physical: string, names: seq<string>, bound: bool, polls: nat)
    ensures HwConfigs(env, asPath, data, key, physical, names, bound, polls).added <=
            HwConfigs(env.(cancel := Never), asPath, data, key, physical, names, bound, polls).added
    ensures HwConfigs(env, asPath, data, key, physical, names, bound, polls).value != Flag(false) ==>
              HwConfigs(env, asPath, data, key, physical, names, bound, polls) == HwConfigs(env.(cancel := Never), asPath, data, key, physical, names, bound, polls)
    decreases |names|
  {
    if |names| > 0 && !Cancelled(env.cancel, polls) {
      var folder := PathJoin(physical, names[0]);
      if !IsDir(env.fs, folder) {
        HwConfigsCancelPrefix(env, asPath, data, key, physical, names[1..], bound, polls + 1);
      } else {
        HwConfigCancelPrefix(env, asPath, data, key, folder, bound, polls + 1);
        var h := HwConfig(env, asPath, data, key, folder, bound, polls + 1);
        if h.value == Flag(true) {
          var seen := bound || |CommonList(env, folder).value| > 0;
          HwConfigsCancelPrefix(env, asPath, data, key, physical, names[1..], seen, h.polls);
        }
      }
    }
  }

  /**
   The whole stage. A missing `[AS]` entry for the key gives the tuple `(key, False)`,
   a missing `Data` entry None, a missing `Physical` folder a bare False.
   */
  function Hw(env: Env, file: string, key: string, polls: nat): (r: Step)
    ensures r.value.Pair? <==> Get(env.config, key).None?
    ensures r.value.Pair? ==> r.value == Pair(Some(key), false) && r.added == []
    ensures Get(env.config, key).Some? && Get(env.config, "Data").None? ==> r == Step(NoneValue, [], polls)
    ensures r.value == Flag(false) ==> SawFlag(env.cancel, r.polls) || !Exists(env.fs, PhysicalPath(file))
    ensures Get(env.config, key).Some? && Get(env.config, "Data").Some? && Exists(env.fs, PhysicalPath(file)) &&
            ListDir(env.fs, PhysicalPath(file)).Some? && |ListDir(env.fs, PhysicalPath(file)).value| > 0 &&
            Cancelled(env.cancel, polls) ==>
              r == Step(Flag(false), [], polls + 1)
    ensures HwFolders(r.added)
    ensures env.settings.debug <= 0 ==> UnderUpgrades(r.added)
    ensures r.polls >= polls
  {
    match Get(env.config, key)
    case None => Step(Pair(Some(key), false), [], polls)
    case Some(asPath) =>
      match Get(env.config, "Data")
      case None => Step(NoneValue, [], polls)
      case Some(data) =>
        var physical := PhysicalPath(file);
        if !Exists(env.fs, physical) then Step(Flag(false), [], polls)
        else match ListDir(env.fs, physical)
          case None => Step(NoneValue, [], polls)
          case Some(names) => HwConfigs(env, asPath, data, key, physical, names, false, polls)
  }

  /** Cancellation cuts the stage short: its writes are a prefix of the uncancelled stage's. */
  lemma HwCancelPrefix(env: Env, file: string, key: string, polls: nat)
    ensures Hw(env, file, key, polls).added <= Hw(env.(cancel := Never), file, key, polls).added
    ensures Hw(env, file, key, polls).value != Flag(false) ==> Hw(env, file, key, polls) == Hw(env.(cancel := Never), file, key, polls)
  {
    var physical := PhysicalPath(file);
    if Get(env.config, key).Some? && Get(env.config, "Data").Some? && Exists(env.fs, physical) && ListDir(env.fs, physical).Some? {
      HwConfigsCancelPrefix(env, Get(env.config, key).value, Get(env.config, "Data").value, key, physical, ListDir(env.fs, physical).value, false, polls);
    }
  }

  /** `it` is the firmware of a module of the list: below its module folder, the first match of its `OriginalFile`. */
  predicate ExtItem(fs: Fs, data: string, key: string, mods: seq<ExtModule>, it: Item) {
    exists m :: m in mods && it.folder == ExtFolder(m.moduleId) && ExtContributes(fs, data, key, m, it.source)
  }

  lemma ExtItemTail(fs: Fs, data: string, key: string, mods: seq<ExtModule>, it: Item)
    requires |mods| > 0 && ExtItem(fs, data, key, mods[1..], it)
    ensures ExtItem(fs, data, key, mods, it)
  {
    var m :| m in mods[1..] && it.folder == ExtFolder(m.moduleId) && ExtContributes(fs, data, key, m, it.source);
    assert m in mods;
  }

  /** Every file the external module loop writes is a module's firmware, below that module's folder. */
  lemma {:induction false} ExtModulesWritesOnly(env: Env, data: string, key: string, mods: seq<ExtModule>, bound: bool, polls: nat)
    ensures forall it :: it in ExtModules(env, data, key, mods, bound, polls).added ==> ExtItem(env.fs, data, key, mods, it)
    decreases |mods|
  {
    if |mods| > 0 && !Cancelled(env.cancel, polls) {
      var m := mods[0];
      var fw := FirmwarePath(data, key, m);
      var found := if Exists(env.fs, fw) then FirstMatch(env.fs, fw + "/" + OriginalFile(m.source)) else None;
      if !(Exists(env.fs, fw) && found.None? && env.settings.debug > 1 && !bound) {
        var rest := ExtModules(env, data, key, mods[1..], bound, polls + 1);
        var mine := if found.Some? then [Item(ExtFolder(m.moduleId), found.value)] else [];
        assert ExtModules(env, data, key, mods, bound, polls).added == mine + rest.added;
        ExtModulesWritesOnly(env, data, key, mods[1..], bound, polls + 1);
        forall it | it in mine + rest.added ensures ExtItem(env.fs, data, key, mods, it) {
          if it in mine {
            assert m in mods && ExtContributes(env.fs, data, key, m, it.source);
          } else {
            ExtItemTail(env.fs, data, key, mods, it);
          }
        }
      }
    }
  }

  /** The device list the external block reads from entry `n` of a configuration folder, if it reads one. */
  function Devices(env: Env, folder: string, n: string): Option<seq<ExtModule>> {
    var plc := PathJoin(folder, n);
    if IsDir(env.fs, plc) && Exists(env.fs, plc + "/ExternalHardware") && env.settings.debug > 0 then
      match ReadText(env.fs, ExtDevicesPath(plc))
      case None => None
      case Some(content) => env.parse.external(content)
    else None
  }

  /** `it` is the firmware of a module listed by the device list of one of the PLC folders `names`. */
  predicate ExtSource(env: Env, data: string, key: string, folder: string, names: seq<string>, it: Item) {
    exists n :: n in names && Devices(env, folder, n).Some? && ExtItem(env.fs, data, key, Devices(env, folder, n).value, it)
  }

  lemma ExtSourceTail(env: Env, data: string, key: string, folder: string, names: seq<string>, it: Item)
    requires |names| > 0 && ExtSource(env, data, key, folder, names[1..], it)
    ensures ExtSource(env, data, key, folder, names, it)
  {
    var n :| n in names[1..] && Devices(env, folder, n).Some? && ExtItem(env.fs, data, key, Devices(env, folder, n).value, it);
    assert n in names;
  }

  /** Every file the PLC folder loop writes is the firmware of a module of some PLC folder's device list. */
  lemma {:induction false} ExtPlcsWritesOnly(env: Env, data: string, key: string, folder: string, names: seq<string>, bound: bool, polls: nat)
    ensures forall it :: it in ExtPlcs(env, data, key, folder, names, bound, polls).added ==> ExtSource(env, data, key, folder, names, it)
    decreases |names|
  {
    if |names| > 0 {
      var r := ExtPlcs(env, data, key, folder, names, bound, polls);
      var plc := PathJoin(folder, names[0]);
      if IsDir(env.fs, plc) && Exists(env.fs, plc + "/ExternalHardware") && env.settings.debug > 0 {
        var content := ReadText(env.fs, ExtDevicesPath(plc));
        if content.Some? && env.parse.external(content.value).Some? {
          var mods := env.parse.external(content.value).value;
          assert Devices(env, folder, names[0]) == Some(mods);
          var e := ExtModules(env, data, key, mods, bound, polls);
          ExtModulesWritesOnly(env, data, key, mods, bound, polls);
          if e.value == Flag(true) {
            var rest := ExtPlcs(env, data, key, folder, names[1..], bound, e.polls);
            assert r.added == e.added + rest.added;
            ExtPlcsWritesOnly(env, data, key, folder, names[1..], bound, e.polls);
            forall it | it in rest.added ensures ExtSource(env, data, key, folder, names, it) {
              ExtSourceTail(env, data, key, folder, names, it);
            }
          }
          assert forall it :: it in e.added ==> ExtSource(env, data, key, folder, names, it) by {
            assert names[0] in names;
          }
        }
      } else {
        ExtPlcsWritesOnly(env, data, key, folder, names[1..], bound, polls);
        forall it | it in r.added ensures ExtSource(env, data, key, folder, names, it) {
          ExtSourceTail(env, data, key, folder, names, it);
        }
      }
    }
  }

  /** A PLC folder loop that runs to the end wrote the firmware of every module of every device list it read. */
  lemma {:induction false} ExtPlcsWritesAll(env: Env, data: string, key: string, folder: string, names: seq<string>, bound: bool, polls: nat)
    requires ExtPlcs(env, data, key, folder, names, bound, polls).value == Flag(true)
    ensures forall it :: ExtSource(env, data, key, folder, names, it) ==> it in ExtPlcs(env, data, key, folder, names, bound, polls).added
    decreases |names|
  {
    if |names| > 0 {
      var r := ExtPlcs(env, data, key, folder, names, bound, polls);
      var plc := PathJoin(folder, names[0]);
      if IsDir(env.fs, plc) && Exists(env.fs, plc + "/ExternalHardware") && env.settings.debug > 0 {
        var mods := env.parse.external(ReadText(env.fs, ExtDevicesPath(plc)).value).value;
        var e := ExtModules(env, data, key, mods, bound, polls);
        var rest := ExtPlcs(env, data, key, folder, names[1..], bound, e.polls);
        assert r.added == e.added + rest.added;
        ExtModulesWriteAll(env, data, key, mods, bound, polls);
        ExtPlcsWritesAll(env, data, key, folder, names[1..], bound, e.polls);
        forall it | ExtSource(env, data, key, folder, names, it) ensures it in r.added {
          var n :| n in names && Devices(env, folder, n).Some? && ExtItem(env.fs, data, key, Devices(env, folder, n).value, it);
          if n == names[0] {
            var m :| m in mods && it.folder == ExtFolder(m.moduleId) && ExtContributes(env.fs, data, key, m, it.source);
            assert it == Item(ExtFolder(m.moduleId), it.source);
          } else {
            assert n in names[1..];
          }
        }
      } else {
        ExtPlcsWritesAll(env, data, key, folder, names[1..], bound, polls);
        forall it | ExtSource(env, data, key, folder, names, it) ensures it in r.added {
          var n :| n in names && Devices(env, folder, n).Some? && ExtItem(env.fs, data, key, Devices(env, folder, n).value, it);
          assert n != names[0];
          assert n in names[1..];
        }
      }
    }
  }

  /** `it` is, under `Upgrades`, the first `.exe` of a listed module whose type and version folders exist. */
  predicate CommonItem(fs: Fs, asPath: string, mods: seq<HwModule>, it: Item) {
    it.folder == "Upgrades" && exists m :: m in mods && CommonContributes(fs, asPath, m, it.source)
  }

  /** Every file the common module loop writes is a listed module's first `.exe`. */
  lemma {:induction false} CommonModulesWritesOnly(env: Env, asPath: string, mods: seq<HwModule>, polls: nat)
    ensures forall it :: it in CommonModules(env, asPath, mods, polls).added ==> CommonItem(env.fs, asPath, mods, it)
    decreases |mods|
  {
    if |mods| > 0 && !Cancelled(env.cancel, polls) {
      var m := mods[0];
      var mine := if Exists(env.fs, TypeDir(asPath, m)) && Exists(env.fs, VersionDir(asPath, m)) then Upgrade(env.fs, ModulePattern(asPath, m)) else [];
      var rest := CommonModules(env, asPath, mods[1..], polls + 1);
      assert CommonModules(env, asPath, mods, polls).added == mine + rest.added;
      CommonModulesWritesOnly(env, asPath, mods[1..], polls + 1);
      forall it | it in mine + rest.added ensures CommonItem(env.fs, asPath, mods, it) {
        if it in mine {
          assert it == mine[0];
          assert m in mods && CommonContributes(env.fs, asPath, m, it.source);
        } else {
          var q :| q in mods[1..] && CommonContributes(env.fs, asPath, q, it.source);
          assert q in mods;
        }
      }
    }
  }

  /** `it` is written by one configuration folder: external firmware of its PLC folders or a module of its `Hardware.hw`. */
  predicate ConfigSource(env: Env, asPath: string, data: string, key: string, folder: string, it: Item) {
    (ListDir(env.fs, folder).Some? && ExtSource(env, data, key, folder, ListDir(env.fs, folder).value, it)) ||
    (CommonList(env, folder).Some? && CommonItem(env.fs, asPath, CommonList(env, folder).value, it))
  }

  lemma HwConfigWritesOnly(env: Env, asPath: string, data: string, key: string, folder: string, bound: bool, polls: nat)
    requires IsDir(env.fs, folder)
    ensures forall it :: it in HwConfig(env, asPath, data, key, folder, bound, polls).added ==> ConfigSource(env, asPath, data, key, folder, it)
  {
    var e := ExtPlcs(env, data, key, folder, ListDir(env.fs, folder).value, bound, polls);
    ExtPlcsWritesOnly(env, data, key, folder, ListDir(env.fs, folder).value, bound, polls);
    if e.value == Flag(true) && CommonList(env, folder).Some? {
      CommonModulesWritesOnly(env, asPath, CommonList(env, folder).value, e.polls);
    }
  }

  lemma HwConfigWritesAll(env: Env, asPath: string, data: string, key: string, folder: string, bound: bool, polls: nat)
    requires IsDir(env.fs, folder)
    requires HwConfig(env, asPath, data, key, folder, bound, polls).value == Flag(true)
    ensures forall it :: ConfigSource(env, asPath, data, key, folder, it) ==> it in HwConfig(env, asPath, data, key, folder, bound, polls).added
  {
    var e := ExtPlcs(env, data, key, folder, ListDir(env.fs, folder).value, bound, polls);
    ExtPlcsWritesAll(env, data, key, folder, ListDir(env.fs, folder).value, bound, polls);
    var mods := CommonList(env, folder).value;
    CommonModulesWriteAll(env, asPath, mods, e.polls);
    forall it | CommonItem(env.fs, asPath, mods, it) ensures it in CommonModules(env, asPath, mods, e.polls).added {
      var m :| m in mods && CommonContributes(env.fs, asPath, m, it.source);
      assert it == Item("Upgrades", it.source);
    }
  }

  /** `it` is written by one of the configuration folders `names` of `Physical`. */
  predicate HwSource(env: Env, asPath: string, data: string, key: string, physical: string, names: seq<string>, it: Item) {
    exists n :: n in names && IsDir(env.fs, PathJoin(physical, n)) && ConfigSource(env, asPath, data, key, PathJoin(physical, n), it)
  }

  lemma HwSourceTail(env: Env, asPath: string, data: string, key: string, physical: string, names: seq<string>, it: Item)
    requires |names| > 0 && HwSource(env, asPath, data, key, physical, names[1..], it)
    ensures HwSource(env, asPath, data, key, physical, names, it)
  {
    var n :| n in names[1..] && IsDir(env.fs, PathJoin(physical, n)) && ConfigSource(env, asPath, data, key, PathJoin(physical, n), it);
    assert n in names;
  }

  lemma {:induction false} HwConfigsWritesOnly(env: Env, asPath: string, data: string, key: string, physical: string, names: seq<string>, bound: bool, polls: nat)
    ensures forall it :: it in HwConfigs(env, asPath, data, key, physical, names, bound, polls).added ==> HwSource(env, asPath, data, key, physical, names, it)
    decreases |names|
  {
    if |names| > 0 && !Cancelled(env.cancel, polls) {
      var r := HwConfigs(env, asPath, data, key, physical, names, bound, polls);
      var folder := PathJoin(physical, names[0]);
      if !IsDir(env.fs, folder) {
        HwConfigsWritesOnly(env, asPath, data, key, physical, names[1..], bound, polls + 1);
        forall it | it in r.added ensures HwSource(env, asPath, data, key, physical, names, it) {
          HwSourceTail(env, asPath, data, key, physical, names, it);
        }
      } else {
        var h := HwConfig(env, asPath, data, key, folder, bound, polls + 1);
        HwConfigWritesOnly(env, asPath, data, key, folder, bound, polls + 1);
        assert forall it :: it in h.added ==> HwSource(env, asPath, data, key, physical, names, it) by {
          assert names[0] in names;
        }
        if h.value == Flag(true) {
          var seen := bound || |CommonList(env, folder).value| > 0;
          var rest := HwConfigs(env, asPath, data, key, physical, names[1..], seen, h.polls);
          assert r.added == h.added + rest.added;
          HwConfigsWritesOnly(env, asPath, data, key, physical, names[1..], seen, h.polls);
          forall it | it in rest.added ensures HwSource(env, asPath, data, key, physical, names, it) {
            HwSourceTail(env, asPath, data, key, physical, names, it);
          }
        }
      }
    }
  }

  lemma {:induction false} HwConfigsWritesAll(env: Env, asPath: string, data: string, key: string, physical: string, names: seq<string>, bound: bool, polls: nat)
    requires HwConfigs(env, asPath, data, key, physical, names, bound, polls).value == Flag(true)
    ensures forall it :: HwSource(env, asPath, data, key, physical, names, it) ==> it in HwConfigs(env, asPath, data, key, physical, names, bound, polls).added
    decreases |names|
  {
    if |names| > 0 {
      var r := HwConfigs(env, asPath, data, key, physical, names, bound, polls);
      var folder := PathJoin(physical, names[0]);
      if !IsDir(env.fs, folder) {
        HwConfigsWritesAll(env, asPath, data, key, physical, names[1..], bound, polls + 1);
        forall it | HwSource(env, asPath, data, key, physical, names, it) ensures it in r.added {
          var n :| n in names && IsDir(env.fs, PathJoin(physical, n)) && ConfigSource(env, asPath, data, key, PathJoin(physical, n), it);
          assert n in names[1..];
        }
      } else {
        var h := HwConfig(env, asPath, data, key, folder, bound, polls + 1);
        var seen := bound || |CommonList(env, folder).value| > 0;
        var rest := HwConfigs(env, asPath, data, key, physical, names[1..], seen, h.polls);
        assert r.added == h.added + rest.added;
        HwConfigWritesAll(env, asPath, data, key, folder, bound, polls + 1);
        HwConfigsWritesAll(env, asPath, data, key, physical, names[1..], seen, h.polls);
        forall it | HwSource(env, asPath, data, key, physical, names, it) ensures it in r.added {
          var n :| n in names && IsDir(env.fs, PathJoin(physical, n)) && ConfigSource(env, asPath, data, key, PathJoin(physical, n), it);
          if n != names[0] {
            assert n in names[1..];
          }
        }
      }
    }
  }

  /** What the stage may write: the firmware `HwSource` allows for the configured key, `Data` and `Physical`. */
  predicate StageSource(env: Env, file: string, key: string, it: Item) {
    Get(env.config, key).Some? && Get(env.config, "Data").Some? && ListDir(env.fs, PhysicalPath(file)).Some? &&
    HwSource(env, Get(env.config, key).value, Get(env.config, "Data").value, key, PhysicalPath(file), ListDir(env.fs, PhysicalPath(file)).value, it)
  }

  /**
   The stage writes only firmware of the modules of its configuration folders, and a stage
   that runs to the end wrote every such file: the external firmware of the PLC folders'
   device lists and the first `.exe` of every module of each `Hardware.hw`.
   */
  lemma HwWritesExactly(env: Env, file: string, key: string, polls: nat)
    ensures forall it :: it in Hw(env, file, key, polls).added ==> StageSource(env, file, key, it)
    ensures Hw(env, file, key, polls).value == Flag(true) ==>
              forall it :: StageSource(env, file, key, it) ==> it in Hw(env, file, key, polls).added
  {
    var physical := PhysicalPath(file);
    if Get(env.config, key).Some? && Get(env.config, "Data").Some? && Exists(env.fs, physical) && ListDir(env.fs, physical).Some? {
      var asPath := Get(env.config, key).value;
      var data := Get(env.config, "Data").value;
      HwConfigsWritesOnly(env, asPath, data, key, physical, ListDir(env.fs, physical).value, false, polls);
      if Hw(env, file, key, polls).value == Flag(true) {
        HwConfigsWritesAll(env, asPath, data, key, physical, ListDir(env.fs, physical).value, false, polls);
      }
    }
  }
}
