/**
 What every stage of file_handler.py works with: the user's settings (the check-boxes of
 the main window and its debug level), the `config.ini` sections the stages read, the
 parsed XML documents, the Python values the stages return, and the archive writes a
 stage makes.
 */
module Setup {
  import opened Optional
  import opened Text
  import opened Files
  import opened Cancellation
  import opened Archive

  /** The check-box values read through `hmi_instance`; `asUpdates` (`include_as_updates`) is never consulted. */
  datatype Settings = Settings(
    separate: bool,
    runtime: bool,
    technology: bool,
    hardware: bool,
    binaries: bool,
    diagnosis: bool,
    temp: bool,
    dotFolders: bool,
    asUpdates: bool,
    debug: int)

  /**
   The `[AS]` section with option names as configparser stores them (lower-cased), and
   the items of the `[TRANSLATE]` section in file order, None when there is no such section.
   */
  datatype Config = Config(asSection: map<string, string>, translate: Option<seq<(string, string)>>)

  /** `config.has_option('AS', key)` and `config.get('AS', key)`: option names are matched case-insensitively. */
  function Get(cfg: Config, key: string): (r: Option<string>)
    ensures r.Some? <==> Lower(key) in cfg.asSection
    ensures r.Some? ==> r.value == cfg.asSection[Lower(key)]
  {
    if Lower(key) in cfg.asSection then Some(cfg.asSection[Lower(key)]) else None
  }

  /** A child of `TechnologyPackages`: its namespaced tag and its `Version` attribute. */
  datatype Package = Package(tag: string, version: Option<string>)

  /** The parsed `.apj` file: the `TechnologyPackages` element's children, None when there is no such element. */
  datatype ProjectXml = ProjectXml(packages: Option<seq<Package>>)

  /** A `Module` of `Hardware.hw`: its `Type` and `Version` attributes. */
  datatype HwModule = HwModule(moduleType: Option<string>, version: Option<string>)

  /** The `SourceFile` child of an external module and its `OriginalFile` attribute. */
  datatype SourceFile = NoSourceFile | SourceFile(originalFile: Option<string>)

  /** A `Module` of `ExternalHardwareDevices.xml`. */
  datatype ExtModule = ExtModule(moduleId: Option<string>, version: Option<string>, source: SourceFile)

  /** ElementTree as an oracle: None is a document that does not parse. */
  datatype Parsers = Parsers(
    project: string -> Option<ProjectXml>,
    hardware: string -> Option<seq<HwModule>>,
    external: string -> Option<seq<ExtModule>>)

  /** Everything a run reads: files, configuration, settings, the cancel flag and the XML parser. */
  datatype Env = Env(fs: Fs, config: Config, settings: Settings, cancel: Cancel, parse: Parsers)

  /**
   What a stage function returns, as Python sees it: the tuple `(as_version, ok)`,
   a bare bool, or None (the exception handler fell off the end of the function).
   */
  datatype Value = Pair(key: Option<string>, ok: bool) | Flag(b: bool) | NoneValue

  /** Python truth: a two-element tuple is true whatever it holds. */
  predicate Truthy(v: Value) {
    v.Pair? || (v.Flag? && v.b)
  }

  lemma ErrorTupleIsTruthy(k: Option<string>)
    ensures Truthy(Pair(k, false))
    ensures !Truthy(Flag(false)) && !Truthy(NoneValue)
  {
  }

  /** One `add_zip_file([source], updates_file, folder)` call. */
  datatype Item = Item(folder: string, source: string)

  /** A stage's return value, its archive writes in order, and the poll count after it. */
  datatype Step = Step(value: Value, added: seq<Item>, polls: nat)

  /** The first file a glob pattern matches (`matching_files[0]`), if any. */
  function FirstMatch(fs: Fs, pattern: string): (r: Option<string>)
    ensures r.None? <==> |Glob(fs, pattern)| == 0
    ensures r.Some? ==> r.value in Glob(fs, pattern)
  {
    var m := Glob(fs, pattern);
    if |m| == 0 then None else Some(m[0])
  }

  /** The lookup-and-add step of every stage: the first match of the pattern, added under `Upgrades`, or nothing. */
  function Upgrade(fs: Fs, pattern: string): (r: seq<Item>)
    ensures |r| <= 1 && UnderUpgrades(r)
    ensures |r| == 0 <==> |Glob(fs, pattern)| == 0
    ensures |r| == 1 ==> r[0] == Item("Upgrades", Glob(fs, pattern)[0])
  {
    match FirstMatch(fs, pattern)
    case None => []
    case Some(f) => [Item("Upgrades", f)]
  }

  /** Every write goes to the `Upgrades` folder of the archive. */
  predicate UnderUpgrades(items: seq<Item>) {
    forall i :: 0 <= i < |items| ==> items[i].folder == "Upgrades"
  }

  lemma UnderUpgradesConcat(a: seq<Item>, b: seq<Item>)
    ensures UnderUpgrades(a) && UnderUpgrades(b) ==> UnderUpgrades(a + b)
  {
    if UnderUpgrades(a) && UnderUpgrades(b) {
      forall i | 0 <= i < |a + b| ensures (a + b)[i].folder == "Upgrades" {
        if i >= |a| {
          assert (a + b)[i] == b[i - |a|];
        }
      }
    }
  }

  /** The `Physical` folder next to the project file (lines 109 and 237). */
  function PhysicalPath(file: string): string {
    Dirname(file) + "/Physical"
  }

  /** The single-file `add_zip_file` calls of a stage, applied in order to one archive. */
  function AddAll(store: Store, zip: string, items: seq<Item>): Store
    decreases |items|
  {
    if |items| == 0 then store
    else AddAll(AddFiles(store, zip, [items[0].source], items[0].folder), zip, items[1..])
  }

  /** The writes only append to the one archive they go to. */
  lemma {:induction false} AddAllFrame(store: Store, zip: string, items: seq<Item>)
    ensures Entries(store, zip) <= Entries(AddAll(store, zip, items), zip)
    ensures forall z :: z != zip ==> Entries(AddAll(store, zip, items), z) == Entries(store, z)
    decreases |items|
  {
    if |items| > 0 {
      AddFilesSpec(store, zip, [items[0].source], items[0].folder);
      AddAllFrame(AddFiles(store, zip, [items[0].source], items[0].folder), zip, items[1..]);
    }
  }

  /** After the writes the archive holds exactly its earlier entries and the archive name of every written file. */
  lemma {:induction false} AddAllContents(store: Store, zip: string, items: seq<Item>)
    ensures forall n :: n in Entries(AddAll(store, zip, items), zip) <==>
              n in Entries(store, zip) || exists i :: 0 <= i < |items| && n == ArcName(items[i].folder, items[i].source)
    decreases |items|
  {
    if |items| > 0 {
      var next := AddFiles(store, zip, [items[0].source], items[0].folder);
      AddFilesSpec(store, zip, [items[0].source], items[0].folder);
      AddAllFrame(next, zip, items[1..]);
      AddAllContents(next, zip, items[1..]);
      var r := AddAll(store, zip, items);
      forall n | n in Entries(r, zip) && n !in Entries(store, zip)
        ensures exists i :: 0 <= i < |items| && n == ArcName(items[i].folder, items[i].source)
      {
        if n in Entries(next, zip) {
          assert n == ArcName(items[0].folder, items[0].source);
        } else {
          var j :| 0 <= j < |items[1..]| && n == ArcName(items[1..][j].folder, items[1..][j].source);
          assert items[1..][j] == items[j + 1];
        }
      }
      forall i | 0 <= i < |items| ensures ArcName(items[i].folder, items[i].source) in Entries(r, zip) {
        if i > 0 {
          assert items[1..][i - 1] == items[i];
        }
      }
    }
  }

  /** Single-file writes never give an archive a second entry of one name. */
  lemma {:induction false} AddAllDistinct(store: Store, zip: string, items: seq<Item>)
    requires Distinct(Entries(store, zip))
    ensures Distinct(Entries(AddAll(store, zip, items), zip))
    decreases |items|
  {
    if |items| > 0 {
      AddOneDistinct(store, zip, items[0].source, items[0].folder);
      AddAllDistinct(AddFiles(store, zip, [items[0].source], items[0].folder), zip, items[1..]);
    }
  }

  /** No entry name appears twice. */
  predicate Distinct(names: seq<string>) {
    forall i, j :: 0 <= i < j < |names| ==> names[i] != names[j]
  }

  /** A one-file `add_zip_file` never introduces a second entry of a name. */
  lemma AddOneDistinct(store: Store, zip: string, source: string, folder: string)
    ensures Distinct(Entries(store, zip)) ==> Distinct(Entries(AddFiles(store, zip, [source], folder), zip))
  {
    var e := Entries(store, zip);
    var n := ArcName(folder, source);
    if n !in e {
      assert NewNames(e, [source], folder) == [n];
      assert Entries(AddFiles(store, zip, [source], folder), zip) == e + [n];
    } else {
      assert NewNames(e, [source], folder) == [];
      assert e + [] == e;
    }
  }

  /** Writing two batches one after the other is writing their concatenation. */
  lemma {:induction false} AddAllAppend(store: Store, zip: string, a: seq<Item>, b: seq<Item>)
    ensures AddAll(AddAll(store, zip, a), zip, b) == AddAll(store, zip, a + b)
    decreases |a|
  {
    if |a| == 0 {
      assert a + b == b;
    } else {
      var next := AddFiles(store, zip, [a[0].source], a[0].folder);
      assert (a + b)[0] == a[0];
      assert (a + b)[1..] == a[1..] + b;
      AddAllAppend(next, zip, a[1..], b);
    }
  }
}
